# The XPilot server core: a verified model

XPilot is a multi-player space game.  This project models the parts of its server that decide something, in the
order of the program: how packets are written and read, how reliable data get through a network that loses them,
the random number generator, the test of ship shapes, teams and home bases, identifiers and the player table, the
object table with its balls and shots, collisions, the end of a round, and the smaller algorithms of map compression,
server options and the login queue.  `dafny verify dfyconfig.toml` checks all of it.

| file | what it is about |
|---|---|
| PacketCodec.dfy, Sockbuf.dfy | the format-driven packet printer and scanner as functions, and the socket buffers that do it in place |
| Reliable.dfy, Connection.dfy, Protocol.dfy | the reliable byte stream as a function of its state; the connection object that computes it; and the whole protocol with a network that may lose, repeat and reorder anything and a client that follows the rule written down in the server; the estimator of round trips and the backing off of the timer |
| ConnectionCounts.dfy | the counters of connections |
| MersenneTwister.dfy | the block generator against the unbounded MT19937 recurrence, the seeding in closed form, and what the twist keeps |
| ShipGrid.dfy | the outline raster, the flood fill, and that the fill does not get through the outline |
| TeamRules.dfy, Teams.dfy | home bases and team membership as a history of steps, and the counters and player fields that record them |
| MapPosition.dfy, CellGrid.dfy | wrapping coordinates, and the chains of objects by block that collisions use |
| ObjectPool.dfy | the object table: adding, removing, timing out; balls, treasures and shots |
| IdRing.dfy, Registry.dfy | identifiers, the player table, and the references between players |
| RoundEnd.dfy | team statistics and the choice of a winner |
| SweptCollision.dfy, MapCollision.dfy | the collision test for moving objects, and the same on a map whose edges are joined |
| PlayerHits.dfy, CollisionRound.dfy | what the objects that strike a player do to him, one after the other, and rounds of such turns |
| MapCompression.dfy | the run-length form of the map |
| OptionRules.dfy, OptionStore.dfy | which setting of an option counts, and the hash table that keeps them |
| LoginQueue.dfy | the queue of players who want to enter |
| Names.dfy, Numbers.dfy, Counting.dfy, Entities.dfy | what several of them share |

Objects that the server updates in place are classes here, with methods that follow its loops and branches.  Each
method is specified by what its state means before and after: the contents of a buffer, the state of the link, the
roster of the teams, the list that a chain of pointers stands for.  The properties are then stated about those
meanings, over whole runs where the server promises them for whole runs.  Time, random numbers, distances and the fate
of a datagram are parameters.

## Where the code falls short of what it promises

The model follows the code.  These promises hold only under a condition, which is stated exactly, with an input
that breaks them otherwise:

- A cut string makes its packet unreadable: printing and scanning are inverse if and only if no string is cut
  (PacketCodec.RoundTripExact, CutStringShown).
- The draining state is described as waiting until all reliable data are acknowledged (src/server/netserver.h:40).
  The code waits for all data that have been sent (ReliableProtocol.DrainEndsExactly, DrainEndsEarly).
- The retransmission deadline lies in the future exactly if the current timeout is positive; at one frame per second
  the first one does not (ReliableLink.DeadlineAfterSend, DeadlineAtOneFps).
- A query of the collision grid agrees with a scan of all objects only on the maps of CellGrid.AgreesExactly; otherwise
  it misses objects (CellGrid.LowMapMisses) or reports some twice (CellGrid.HalfMapReportsTwice).
- Between two queries of a frame objects expire.  A later query reports those of them within its radius as well
  (CellGrid.Cells.QueryNow, CellGrid.ExpiredIsReported); its caller passes them over (src/server/collision.c:692-696).
- A round of collision checks is not the same as comparing all players with all objects: a player's death ends his turn,
  and what is listed behind it is left alone.  The two agree in every turn if and only if nothing that strikes a player is
  listed behind what kills him, and at the end if and only if what he leaves is used up later (CollisionRound.RoundAgrees,
  RoundEndsAlike; CellGrid.TwoShots).  Whether he is killed does not depend on the order (PlayerHits.OutcomeIgnoresOrder).
- Four blocks are enough to find all that collides with a player at moderate speeds (MapCollision.CollisionIsNear,
  SpeedLimitIsSlow), but the limit of 65 pixels a frame (src/common/const.h:146) is not enforced, and faster objects are
  missed (CellGrid.FastIsMissed).
- Two objects that begin a frame too close and move apart are not reported (SweptCollision.Exact, LeavingIsMissed), nor
  are two that are close to each other across the edge of the map, if neither of them crosses it, nor a player who crosses
  the y edge beside an object that does not and is in the upper half of the map: there src/server/collision.c:121 asks
  whether the wrong one of them crosses.  On a map large enough for their moves nothing else is missed
  (MapCollision.CollideExact, EdgeIsMissed, YEdgeIsMissed).
- Removing an attached ball leaves another player reaching for it (ObjectPool.Pool.ObjectRemove, ContestedBall).  This
  does not last: the only caller, the sweep, at once puts a new ball into the same object (src/server/object.c:99-104,
  ObjectPool.Pool.Replace).
- With 256 players in the game a newcomer gets the identifier 0 (Registry.Registry.PlayerAdd, Registry.FullGame).
- A team cannot win by points if it has a negative number of them (RoundEnd.ChoiceIsBest, NegativePointsDraw).

## Model

| member | source | states |
|---|---|---|
| PacketCodec.BigEndianRoundTrip | src/common/net.c:474-548 | a number of any width written most significant byte first is read back modulo the width, negative numbers included |
| PacketCodec.NumberRoundTrip | src/common/net.c:640-775 | every numeric conversion gives back the value reduced to the field's width, with the field's sign |
| PacketCodec.TextRoundTrip | src/common/net.c:776-825 | a string that is shorter than its limit and followed by its nul is read back whole, wherever it lies in the data |
| PacketCodec.RoundTrip | src/common/net.c:425-858 | for any format and arguments, scanning what was printed gives the same values back and consumes exactly those bytes, whatever surrounds them, provided no string was cut |
| PacketCodec.CutStringUnreadable | src/common/net.c:550-570 | a packet that ends with what was printed and holds a cut string is never scanned successfully |
| PacketCodec.RoundTripExact | src/common/net.c:425-858 | printing then scanning gives the arguments back if and only if no string was cut |
| PacketCodec.CutStringShown | src/common/net.c:550-570 | a string of three letters at the end of the space that loses its nul and is not read back |
| PacketCodec.NothingAfterEnd | src/common/net.c:550-570 | once the end of the space is reached, a print that still succeeds adds nothing |
| PacketCodec.PrintStaysBelow | src/common/net.c:466-608 | a successful print never writes beyond the end it was given |
| PacketCodec.PercentS | src/common/net.c:550-570 | "%s" prints a text of fewer than 80 bytes as it is with a nul, where there is room, and reads back every such text |
| PacketCodec.PercentBigS | src/common/net.c:550-570 | "%S" does the same for fewer than 256 bytes |
| PacketCodec.PercentC | src/common/net.c:474-481 | "%c" stores a number modulo 256 in one byte and reads it back from there |
| PacketCodec.PercentH | src/common/net.c:504-524 | "%hd" gives back -32768 to 32767 and "%hu" 0 to 65535, in two bytes, most significant first |
| PacketCodec.PercentD | src/common/net.c:482-492 | "%d" and "%ld" give back -2147483648 to 2147483647 in four bytes, most significant first |
| PacketCodec.PercentU | src/common/net.c:493-503 | "%u" and "%lu" give back 0 to 4294967295 in four bytes, most significant first |
| PacketCodec.UnknownLetter | src/common/net.c:571-577 | a format with any other letter behind a percent sign, or with none in front, fails to print and to scan |
| PacketCodec.LongTextIsCut | src/common/net.c:550-570 | a text that does not fit is cut at the end of the space or at its limit and loses its nul |
| PacketCodec.NoRoomForNumber | src/common/net.c:474-548 | a number is printed exactly if there is room for it and a byte to spare, and read exactly if all its bytes are there |
| Sockbufs.Sockbuf.constructor | src/common/net.c:74-86 | a new buffer is empty and has the given size and mode |
| Sockbufs.Sockbuf.Clear | src/common/net.c:99-104 | nothing is left in the buffer and the read position is at its start |
| Sockbufs.Sockbuf.Advance | src/common/net.c:106-160 | exactly the first n bytes are gone, all the others stay in order, and the read position keeps its byte if that survives |
| Sockbufs.Sockbuf.Write | src/common/net.c:277-302 | data are appended whole or, for lack of room or permission, not at all |
| Sockbufs.Sockbuf.Flush | src/common/net.c:162-275 | what reaches the network is the whole contents as one datagram or nothing, the buffer is empty afterwards, and the result tells a sent datagram, a busy network and a refusal apart |
| Sockbufs.Sockbuf.PutNumber | src/common/net.c:474-548 | the bytes stored are the big-endian form of the number, and nothing in front of them changes |
| Sockbufs.Sockbuf.PutText | src/common/net.c:550-570 | the character loop stores the string with its nul up to the limit and stops there |
| Sockbufs.Sockbuf.Printf | src/common/net.c:425-608 | the in-place print appends exactly the specified packet or leaves the contents as they were, and its result tells success, lack of room and a bad format apart |
| Sockbufs.Sockbuf.GetText | src/common/net.c:776-825 | the character loop accepts a string exactly if its nul comes in time |
| Sockbufs.Sockbuf.GetNumber | src/common/net.c:640-775 | assembling the bytes gives the value of the field with its sign |
| Sockbufs.Sockbuf.Scanf | src/common/net.c:613-858 | the in-place scan returns the specified values and moves just past them, or does not move at all |
| ReliableLink.BurstTiles | src/server/netserver.c:1873-1897 | the packets of one burst are consecutive pieces of at most 1024 bytes that together make up a prefix of what was to be sent |
| ReliableLink.BurstStops | src/server/netserver.c:1873-1897 | a burst ends only when its credit or the data are used up or a send fails, and all packets but the last are full |
| ReliableLink.TileSlice | src/server/netserver.c:1873-1897 | each packet carries the bytes of the stream that its offset names |
| ReliableLink.EstimateStays | src/server/netserver.c:1955-2002 | one measurement keeps the smoothed round trip between any bounds that hold for it and the measurement, and the deviation within 4 MAX_RTT - 1 |
| ReliableLink.EstimatorBounds | src/server/netserver.c:1955-2002 | over any run of measurements the estimate stays between the smallest and the largest accepted one, so that it never falls back to the sentinel 0 |
| ReliableLink.SendKeepsTimer | src/server/netserver.c:1904-1930 | whatever is sent, the timer's bounds hold afterwards |
| ReliableLink.AckKeepsTimer | src/server/netserver.c:1955-2002 | whatever acknowledgement is accepted, the timer's bounds hold afterwards |
| ReliableLink.DeadlineAfterSend | src/server/netserver.c:1913-1926 | after a send the deadline is at most MAX_RETRANSMIT loops ahead, and later than now exactly if the current timeout is positive, as it is from two frames per second on |
| ReliableLink.DeadlineAtOneFps | src/server/netserver.c:1913-1926 | a concrete connection at one frame per second whose first deadline is not in the future |
| ReliableLink.SendsExactly | src/server/netserver.c:1833-1874 | exactly when something goes out: something is pending, nothing has been sent in this loop, a byte fits behind the frame, and the deadline has passed or the frame takes along a byte never sent before |
| ReliableLink.SendsAsMuch | src/server/netserver.c:1837-1897 | how much goes out, in terms of what is pending, the frame and the credit, which is halved exactly if a deadline has passed |
| ReliableLink.SendExpired | src/server/netserver.c:1916-1923 | a send that finds the timer expired sets the deadline min(timeout, fps + 1) loops ahead, doubles the timeout and counts it |
| ReliableLink.SendUnexpired | src/server/netserver.c:1924-1926 | a send before the deadline starts the timer anew without doubling or counting |
| ReliableLink.SendRefrains | src/server/netserver.c:1833-1863 | what a send leaves alone when nothing is pending, the loop has had its send, the frame is too big, or the deadline is ahead and there is no frame |
| ReliableLink.SendNothing | src/server/netserver.c:1833-1863 | a send with which nothing goes out leaves timer and stream alone |
| ReliableLink.SendStops | src/server/netserver.c:1883-1893 | a datagram that would block ends the burst and the credit; one that is refused ends the connection |
| ReliableLink.FirstDeadline | src/server/netserver.c:1913-1923 | the first packet of a new connection is due again half a second after it was sent |
| ReliableLink.EstimateFollows | src/server/netserver.c:1961-1975 | the first sample is the estimate, and every later one moves it strictly towards itself and never beyond |
| ReliableLink.EighthOfError | src/server/netserver.c:1971-1975 | each sample takes away one eighth of the error |
| ReliableLink.DeviationFollows | src/server/netserver.c:1979-1987 | the deviation is moved towards the size of the error in the same way, and samples out of range change nothing |
| ReliableLink.TimeoutFollows | src/server/netserver.c:1994-2001 | the timeout is the estimate and twice the deviation, to within one loop, and never below MIN_RETRANSMIT |
| ReliableLink.DeviationLengthens | src/server/netserver.c:1994-2001 | a deviation larger by two units makes the timeout one loop longer, unless both are the smallest possible |
| ReliableLink.EstimateConverges | src/server/netserver.c:1955-1975 | enough equal samples make the estimate the sample, whatever it was before |
| ReliableLink.TimeoutConverges | src/server/netserver.c:1979-2001 | with more of them the deviation vanishes as well, and the timeout is the round trip and at most two loops more, or the smallest possible |
| ReliableLink.AckGivesCredit | src/server/netserver.c:2016-2041 | what an acknowledgement of new data does to credit, count of timeouts and timer |
| ReliableLink.AckLeavesStates | src/server/netserver.c:2024-2040 | exactly when an acknowledgement ends the draining and the ready state |
| ReliableProtocol.StepKeeps | src/server/netserver.c:79-89 | appending, sending, loss, duplication and reordering of packets and acknowledgements, changes of state and the passing of time all keep the stream invariant |
| ReliableProtocol.RunKeeps | src/server/netserver.c:1825-2044 | over any run the stream invariant holds, and the stream, the client's position and the acknowledged offset only grow |
| ReliableProtocol.ReliableStreamSafe | src/server/netserver.c:79-89 | in every reachable state what the client has accepted is a prefix of everything appended, the buffer holds the stream from reliable_offset on, and reliable_offset <= client position <= reliable_unsent <= stream length |
| ReliableProtocol.AcceptedOnlyGrows | src/server/netserver.c:79-89 | what the client has accepted is never taken back, only extended |
| ReliableProtocol.NoFalseDisconnect | src/server/netserver.c:2003-2011 | no acknowledgement that a rule-following client ever sent, however late or repeated, makes the server drop the connection |
| ReliableProtocol.RoundMakesProgress | src/server/netserver.c:1833-1932 | in every reachable state with an expired timer, one loss-free round of send, delivery and acknowledgement strictly shrinks the unacknowledged data |
| ReliableProtocol.AllDelivered | src/server/netserver.c:1825-2044 | from any state in which the stream invariant holds, some continuation gives the client the whole stream and the server its acknowledgement |
| ReliableProtocol.NothingIsLostForGood | src/server/netserver.c:79-89 | after any run, however much was lost in it, the run can go on so that the client has everything appended and nothing is left unacknowledged |
| ReliableProtocol.DeadlineAlwaysAhead | src/server/netserver.c:1904-2002 | in every reachable state the estimator is within its bounds and the next deadline is ahead of now by at most MAX_RETRANSMIT |
| ReliableProtocol.BacksOff | src/server/netserver.c:1913-1926 | in a run in which no acknowledgement arrives, the k-th send that finds the timer expired sets its deadline min(2^k r, fps + 1) loops ahead, where r is the timeout at the start, and each is counted |
| ReliableProtocol.AlwaysBacksOff | src/server/netserver.c:1913-1926 | this holds from every reachable state, and such runs with any number of sends exist from it as long as something is unacknowledged |
| ReliableProtocol.DrainEndsExactly | src/server/netserver.c:2024-2033 | an acknowledgement ends the draining state exactly if it covers all that was sent; then nothing is left behind exactly if everything appended had been sent |
| ReliableProtocol.DrainEndsEarly | src/server/netserver.h:40 | a reachable state, contrary to the description of the draining state, in which it ends with a byte still unacknowledged |
| Connections.HeaderPrint | src/server/netserver.c:1876-1878 | the header of a reliable packet prints to eleven bytes wherever there is room for them |
| Connections.ReliableDatagramReads | src/server/netserver.c:1876-1878 | a reader that has got past the frame finds the length, stream position and time of a reliable packet, and right behind them its data |
| Connections.AckShape | src/server/netserver.c:1942-1954 | an acknowledgement that can be read has a type and two numbers |
| Connections.AckBytes | src/server/netserver.c:1942-1954 | nine bytes that begin with 43 are an acknowledgement of a place and a time |
| Connections.NoAckBytes | src/server/netserver.c:1942-1954 | nothing else is |
| Connections.HeaderBytes | src/server/netserver.c:1876-1878 | the eleven bytes of a reliable packet's header, one by one |
| Connections.FrameBytes | src/server/netserver.c:1521-1587 | the bytes that open and close a frame, one by one |
| Connections.Connection.constructor | src/server/netserver.c:570-715 | a new connection is listening, and nothing has been appended, sent or acknowledged |
| Connections.Connection.AppendReliable | src/server/netserver.c:1257-1282 | a reliable packet is appended to the stream whole or not at all |
| Connections.Connection.SendPlayer | src/server/netserver.c:1257-1282 | of two packets that belong together both or none are appended, and none unless the client is playing or about to |
| Connections.Connection.HandleSetup | src/server/netserver.c:810-865 | the first call appends the setup packet and fails exactly if that has no room; every call in the setup state then appends map data up to 4096 bytes in the buffer, and starts draining exactly when the last byte is appended; nothing else of the link changes |
| Connections.Connection.AppendMap | src/server/netserver.c:841-859 | the next piece of the map is the largest that keeps the buffer within 4096 bytes |
| Connections.Connection.SendPacket | src/server/netserver.c:1876-1893 | one datagram leaves: what the frame held, the header and the data; neither can fail for lack of room |
| Connections.Connection.SendBurst | src/server/netserver.c:1873-1897 | the loop sends exactly the packets of the specified burst, as datagrams of which the first carries the frame |
| Connections.Connection.ArmTimer | src/server/netserver.c:1904-1932 | the deadline is set and the timeout doubled as the backing off of the protocol requires, and the highest byte sent is remembered |
| Connections.Connection.SendReliable | src/server/netserver.c:1825-1933 | the code does what the protocol's send step says, byte for byte on the network; a frame that nothing was put behind is left alone |
| Connections.Connection.MeasureRtt | src/server/netserver.c:1955-2002 | the in-place arithmetic is the estimator of the protocol |
| Connections.Connection.LeaveDraining | src/server/netserver.c:2024-2040 | the draining and ready states are left exactly as the protocol says |
| Connections.Connection.Slide | src/server/netserver.c:2016-2041 | the acknowledged bytes, and no others, leave the buffer, and the credit grows |
| Connections.Connection.ReceiveAck | src/server/netserver.c:1935-2044 | the code does what the protocol's acknowledgement step says for the packet it reads, and drops the connection for any other packet; exactly that packet has been read |
| Connections.Connection.StartOfFrame | src/server/netserver.c:1521-1549 | a playing client's frame starts with the start packet alone, with room for the end reserved |
| Connections.Connection.PutFrame | src/server/netserver.c:1383-1400 | any print into the frame keeps the reserve |
| Connections.Connection.SendDebris | src/server/netserver.c:1356-1381 | all points are appended or, if they do not fit, the largest prefix that leaves the reserve untouched; none is sent exactly if there is none, too many are asked for or not one fits |
| Connections.Connection.SendFastshot | src/server/netserver.c:1402-1428 | all shots are appended or, if they do not fit, the largest prefix that leaves the reserve untouched; none is sent exactly if there is none, too many are asked for or not one fits |
| Connections.Connection.SendFastradar | src/server/netserver.c:1468-1493 | all points are appended if they fit with a byte to spare, and otherwise the largest prefix that leaves two more bytes; nothing is written exactly if too many are asked for or hardly any room is left |
| Connections.Connection.EndOfFrame | src/server/netserver.c:1551-1587 | the end packet always fits, so that the first datagram to leave starts with the complete frame; reliable data follow it exactly when the protocol would send, and otherwise the link is as before |
| ConnectionCounts.PhasesAdd | src/server/netserver.c:433-472 | every connection is either unused, logging in or in the game |
| ConnectionCounts.Counts.SetState | src/server/netserver.c:433-472 | the counters kept from change to change are the true numbers of connections in use, in the game and logging in |
| MersenneTwister.ReloadContinues | src/common/randommt.c:133-155 | the word stored by a reload is the next of the recurrence, although the code tests the low bit of the unmixed word |
| MersenneTwister.EvenSeedsRepeat | src/common/randommt.c:126 | an even seed gives the sequence of the next odd one |
| MersenneTwister.StartClosed | src/common/randommt.c:126-129 | the i-th word of the first block is (seed | 1) 69069^i modulo 2^32 |
| MersenneTwister.StartIsOdd | src/common/randommt.c:126-129 | every word of the first block is odd |
| MersenneTwister.WordsBack | src/common/randommt.c:143-150 | the twist loses nothing: the upper bit of a word and the lower 31 bits of the next follow from two later words of the recurrence |
| MersenneTwister.FirstOutputs | src/common/randommt.c:171-188 | the first two outputs for the seed 4357 are 3510405877 and 4290933890 |
| MersenneTwister.TemperInverse | src/common/randommt.c:147-154 | tempering loses nothing: the word can be computed back from the output |
| MersenneTwister.OutputsRecur | src/common/randommt.c:133-169 | the outputs alone obey the recurrence, so that 624 of them determine all later ones |
| MersenneTwister.Generator.Seed | src/common/randommt.c:78-131 | the block holds the first 624 words of the recurrence for the seed |
| MersenneTwister.Generator.ReloadLow | src/common/randommt.c:133-155 | the first phase replaces 227 words in place, reading only words not yet replaced |
| MersenneTwister.Generator.ReloadHigh | src/common/randommt.c:133-155 | the second phase replaces all but the last of the rest, reading words already replaced where the recurrence wants them |
| MersenneTwister.Generator.ReloadBlock | src/common/randommt.c:133-155 | the whole block is replaced in place by the next 624 words of the recurrence |
| MersenneTwister.Generator.Random | src/common/randommt.c:157-169 | the n-th call after seeding returns the n-th tempered word of the unbounded recurrence, for any number of calls; a generator never seeded behaves as if seeded with 4357 |
| ShipGrid.ShallowIsChain | src/common/shipshape.c:960-977 | the two loops over x draw the same chain of cells, counted from its lower end |
| ShipGrid.ShallowConnected | src/common/shipshape.c:960-977 | consecutive cells of an edge differ by at most one in each coordinate, and the chain runs from one end point to the other |
| ShipGrid.EdgeInBox | src/common/shipshape.c:951-996 | an edge never leaves the box spanned by its end points |
| ShipGrid.EdgeExactly | src/common/shipshape.c:956-995 | the cells of any edge, steep or not: its first point and, column by column or row by row, the cell beside the exact line on the side the truncation chooses |
| ShipGrid.EdgeChain | src/common/shipshape.c:956-995 | they form a chain from the first point to one beside the last, each step one on along the longer axis and at most one along the other |
| ShipGrid.EdgeOnce | src/common/shipshape.c:956-995 | for each step along the longer axis there is exactly one cell, and no other is drawn |
| ShipGrid.BothSides | src/common/shipshape.c:956-995 | the cells on either side of each cell of an edge are on different sides of it |
| ShipGrid.EdgeSeparates | src/common/shipshape.c:1008-1019 | no walk from neighbour to neighbour gets from one side of an edge to the other beside it and clear of its cells |
| ShipGrid.LoopCloses | src/common/shipshape.c:951-996 | the outline is one closed walk, corner to corner included |
| ShipGrid.LoopIsDrawn | src/common/shipshape.c:951-996 | the cells of this walk are exactly those that are drawn |
| ShipGrid.EnclosedIsInside | src/common/shipshape.c:941-1019 | a cell that the outline passes above an odd number of times is never outside, whatever the shape: the fill finds no gap in any outline within the grid |
| ShipGrid.TriangleEncloses | src/common/shipshape.c:978-995 | a triangle with a steep back edge encloses its middle |
| ShipGrid.BeyondIsOutside | src/common/shipshape.c:998-1019 | every grid cell beyond the bounding box of the outline is outside the ship |
| ShipGrid.OutsideExactly | src/common/shipshape.c:998-1019 | a cell is outside exactly if no edge covers it and it is at the border or beside an outside cell, left, right, above or below |
| ShipGrid.ClosedHoldsWalk | src/common/shipshape.c:1009-1019 | a set of blank cells that holds the blank border and all blank neighbours of its cells holds everything that can be reached |
| ShipGrid.CellsDistinct | src/common/shipshape.c:241-247 | distinct cells of the grid are at most 961, so that the work list never outgrows its array |
| ShipGrid.Grid.DrawColumns | src/common/shipshape.c:960-977 | the loops mark exactly the cells of the edge |
| ShipGrid.Grid.DrawRows | src/common/shipshape.c:978-995 | the loops mark exactly the cells of the steep edge |
| ShipGrid.Grid.DrawOutline | src/common/shipshape.c:950-996 | exactly the cells of the closed outline are marked |
| ShipGrid.Grid.SeedBorder | src/common/shipshape.c:998-1006 | every blank cell of the border is put on the work list |
| ShipGrid.Grid.Spread | src/common/shipshape.c:1008-1019 | one turn takes the next cell and adds its blank neighbours, and only cells that can be reached |
| ShipGrid.Grid.Flood | src/common/shipshape.c:948-1019 | the fill ends, and exactly the blank cells that can be reached from the border are marked 2 |
| ShipGrid.Grid.IsOutside | src/common/shipshape.c:1026-1031 | the check of a special point tells exactly whether it lies outside the ship, and never rejects a point that the outline encloses |
| TeamRules.RunKeeps | src/server/player.c:847-954 | over any run of joins, leaves, team swaps and home changes, home bases are pairwise distinct, belong to their owner's team, and only pausers lack one |
| TeamRules.TakeHomeKeeps | src/server/player.c:1407-1442 | taking over a base, with the exchange of homes, keeps the assignment fair |
| TeamRules.TakeHomeMeans | src/server/player.c:1407-1442 | who lives where afterwards: the player at the base, a team mate who lived there at the player's old home, and everybody else where he was |
| TeamRules.EntriesMean | src/server/player.c:570-582 | entry by entry, what joining, leaving, moving and exchanging do to the roster |
| TeamRules.MembersWithinBases | src/server/team.c:349-404 | in a fair assignment no playing team has more members than bases |
| TeamRules.NeverOversubscribed | src/server/team.c:349-404 | no playing team ever has more members than bases, whatever happened before |
| TeamRules.FullIffNoFreeBase | src/server/team.c:349-404 | a playing team has fewer members than bases exactly if one of its bases is free |
| Teams.TeamPlay.MarkFreeBases | src/server/team.c:349-382 | the marks are exactly the free bases of the team, and the count is their number |
| Teams.TeamPlay.PickFreeBase | src/server/team.c:349-404 | the base picked is the free one that the random number points at; none is picked exactly if none is free |
| Teams.TeamPlay.AddToTeam | src/server/player.c:376-385 | the member counters are again the numbers of members |
| Teams.TeamPlay.RemoveFromTeam | src/server/player.c:387-396 | the member counters are again the numbers of members |
| Teams.TeamPlay.Leave | src/server/player.c:555-582 | the leaving player changes places with the last one, and nobody else's team, base or place changes |
| Teams.TeamPlay.Login | src/server/netserver.c:873-945 | a newcomer enters with a free base of his team, or, exactly if there is none or no room, the game is as before |
| Teams.TeamPlay.SwapTeam | src/server/player.c:847-921 | a player gets a free base of the new team, none on the pausers' team, and is removed exactly if there is none |
| Teams.TeamPlay.SwapTeams | src/server/player.c:931-954 | two players exchange team and base, and nothing else changes |
| Teams.TeamPlay.OwnerOf | src/server/player.c:686-699 | the first player living at a base is found, or that nobody does |
| Teams.TeamPlay.ChangeHome | src/server/player.c:1407-1442 | a base of the own team is taken over; whoever lived there gets the old one |
| Teams.TeamPlay.MembersFit | src/server/team.c:349-404 | in every valid state the member counter of a playing team is at most its number of bases |
| MapPosition.WrapBase | src/server/map.h:149-169 | the loops end at the place on the ring that the value comes round to, or without wrapping at the nearest place on the map |
| MapPosition.ShortestWay | src/server/map.h:191-201 | the wrapped difference leads to the same place, and no other way there is shorter |
| MapPosition.DeltaIsDistance | src/server/map.h:191-201 | the size of the wrapped difference is the distance round the edge of the map |
| MapPosition.BlocksCoverPixels | src/server/collision.c:684 | objects at most 35 r pixels apart along an axis are at most r blocks apart along it, also across the edge |
| MapPosition.Position.Set | src/server/objpos.c:45-62 | clicks, pixels and blocks name the same place, and the block is on the map |
| CellGrid.ChainOnce | src/server/collision.c:231-265 | a chain visits each object of its block once and no other |
| CellGrid.ColumnsVisits | src/server/collision.c:380-405 | how often the loops over columns and rows come across an object, across the edge of the map |
| CellGrid.NearbyVisits | src/server/collision.c:314-414 | for all maps, radii and objects, how often a query reports an object: not beyond the radius used, otherwise once, doubled for each direction in which it is exactly half a map away |
| CellGrid.AgreesWithScan | src/server/collision.c:314-414 | on a map where the query can be trusted, each object that was unexpired when the chains were built and is within the radius comes up once, and no other |
| CellGrid.AgreesExactly | src/server/collision.c:320-339 | a query of a radius always agrees with a scan of all objects if and only if the map is one of those |
| CellGrid.LowMapMisses | src/server/collision.c:320-339 | on a map 3 blocks high a player's query misses an object 4 columns away, with wrapping and without |
| CellGrid.HalfMapReportsTwice | src/server/collision.c:380-405 | on a map 8 blocks wide a player's query reports an object 4 columns away twice |
| CellGrid.QueryFits | src/server/collision.c:395-403 | on a trusted map the result never outgrows its array and names no object twice |
| CellGrid.Cells.Insert | src/server/collision.c:237-264 | one object is linked behind the others of its block, in both directions, and new blocks are noted once |
| CellGrid.Cells.Init | src/server/collision.c:231-265 | every block heads the chain of exactly the unexpired objects in it, and the places recorded are those of the objects |
| CellGrid.Cells.CutLink | src/server/collision.c:279-286 | cutting a link empties both of its ends and no other |
| CellGrid.Cells.ClearChain | src/server/collision.c:277-287 | every link of one chain is cut and no other |
| CellGrid.Cells.Cleanup | src/server/collision.c:267-293 | every link, every block and the list of used blocks are empty again, whichever objects have expired since the chains were built |
| CellGrid.Cells.QueryRadius | src/server/collision.c:320-339 | the radius is cut down to what fits on the map |
| CellGrid.Cells.ReadChain | src/server/collision.c:393-404 | the objects of a block are appended to the result in order, as long as there is room |
| CellGrid.Cells.ObjectsGet | src/server/collision.c:314-414 | at any moment between building and clean-up the result holds exactly the objects of the chains the query is to visit, in order, and is terminated |
| CellGrid.Cells.Expire | src/server/object.h:203-206 | an object whose time is up in the middle of the checks leaves the chains as they stand |
| CellGrid.Cells.QueryFinds | src/server/collision.c:314-414 | on a trusted map the result array lists each object of the chains within the radius once, and no other object |
| CellGrid.Cells.QueryNow | src/server/collision.c:314-414 | in the middle of the checks each object unexpired now and within the radius is still listed once; the query agrees with a scan made at that moment if and only if none within the radius has expired since the chains were built |
| CellGrid.ExpiredIsReported | src/server/collision.c:239-245 | an object that has expired since the chains were built and is found in its block |
| CellGrid.Cells.HitOne | src/server/collision.c:686-948 | one object of the result: a player whom it strikes and the object itself are afterwards as the rules for its kind say, and nothing else has changed |
| CellGrid.Cells.HitObjects | src/server/collision.c:686-948 | the loop is the player's turn over the objects listed, from the first: those that strike him act on his ship and are used up one after the other, and with his death it ends |
| CellGrid.Cells.CheckPlayer | src/server/collision.c:677-949 | a player's ship and the lives of all objects are afterwards those of his turn over what a query of four blocks around him reports |
| CellGrid.Cells.CheckPlayers | src/server/collision.c:636-672 | exactly the living players have their turns, in the order of their table |
| CellGrid.Cells.Round | src/server/server.c:373-375 | building the chains, the turns and the clean-up leave every chain empty and the game as the turns make it; on a trusted map, if everything is slow enough, the objects used up are those of comparing all players with all objects if and only if what a dying player leaves behind is used up in a later turn |
| CellGrid.StrikerIsNear | src/server/collision.c:684 | on a trusted map a query of four blocks reports every object that strikes the player, if it is slow enough |
| CellGrid.NearListsServe | src/server/collision.c:684 | there the queries of a round name each object once and miss none that strikes a living player in it |
| CellGrid.RoundExact | src/server/collision.c:630-674 | how such a round is related to comparing all players with all objects: the same in every turn if and only if no turn spares an object, the same at its end if and only if every object spared is used up later, and the same whenever nobody is killed |
| CellGrid.OneShotStays | src/server/collision.c:888-943 | of two shots that reach a player without shields the one listed first kills him and is used up, and the other one stays |
| CellGrid.TwoShots | src/server/collision.c:940-942 | with two shots in different blocks a round on the grid leaves one of them, and comparing all pairs none |
| CellGrid.FastIsMissed | src/server/collision.c:684 | a ball and a ship that pass each other at 75 pixels a frame collide, and the query misses the ball |
| PlayerHits.FuelAdd | src/server/player.c:1165-1181 | the fuel stays between nothing and a full tank |
| PlayerHits.Threatens | src/server/collision.c:688-732 | the tests in front say yes exactly if the object is unexpired, hits, is not harmless to this player and is fused; whose objects team immunity makes harmless, and to whom, is stated outright |
| PlayerHits.StrikeByBall | src/server/collision.c:748-803 | what a ball costs, when it bursts, and exactly when it kills |
| PlayerHits.StrikeByDebris | src/server/collision.c:805-856 | what debris and wreckage cost, and exactly when they kill |
| PlayerHits.Strike | src/server/collision.c:746-947 | what an object that strikes the player does to fuel, shield, state and its own life, and exactly when it kills, kind by kind |
| PlayerHits.OneMore | src/server/collision.c:746-947 | whether a ship outlasts one strike and then others, and in what condition, depends only on what all of them amount to |
| PlayerHits.TurnShip | src/server/collision.c:686-948 | the loop kills the player if and only if the objects that strike him are together too much for his fuel and shield, and costs a survivor what they cost together |
| PlayerHits.TurnLives | src/server/collision.c:686-948 | an object listed is used up if and only if it strikes the player, can be used up, those listed before it leave him alive and, for wreckage and debris, it does so itself |
| PlayerHits.TotalIgnoresOrder | src/server/collision.c:686-948 | what the objects amount to does not depend on the order in which they are listed |
| PlayerHits.OutcomeIgnoresOrder | src/server/collision.c:686-948 | whether the player is killed does not depend on the order of the list; nor does anything else, if he is not |
| PlayerHits.DoomStays | src/server/collision.c:686-948 | more objects never save a player |
| PlayerHits.TurnAgrees | src/server/collision.c:686-948 | a turn uses up what comparing the player with every object uses up if and only if no object that strikes him is listed behind those that kill him or is the wreckage or debris that does |
| CollisionRound.ScanIsPairs | src/server/collision.c:630-674 | the comparison used as reference: an object is used up if and only if it can be and strikes some living player |
| CollisionRound.RoundAgrees | src/server/collision.c:630-674 | the lives are those of comparing all pairs after every turn if and only if in no turn an object is spared, which can be told from that comparison |
| CollisionRound.RoundEndsAlike | src/server/collision.c:630-674 | at the end of a round they are if and only if every object spared is used up in a later turn |
| CollisionRound.RoundShips | src/server/collision.c:630-674 | a player is killed in a round if and only if all the objects that strike him in his turn, in any order, are too much for him; a survivor's ship is what they leave of it |
| CollisionRound.NobodyKilled | src/server/collision.c:630-674 | a round in which nobody is killed ends like comparing all pairs |
| ObjectPool.Pool.constructor | src/server/shot.c:64-81 | all objects are unused and know their place |
| ObjectPool.Pool.PlaceBalls | src/server/server.c:237-244 | exactly the treasures with a team get a ball |
| ObjectPool.Pool.ObjectAdd | src/server/object.c:176-183 | the first unused object is handed out, or none exactly if all are in use |
| ObjectPool.Pool.DetachBalls | src/server/shot.c:343-358 | exactly the balls to be let go are detached, and the count tells whether the player still holds one |
| ObjectPool.Pool.BallDetach | src/server/shot.c:334-362 | HAS_BALL stays with exactly the players who hold a ball |
| ObjectPool.Pool.ForgetBall | src/server/object.c:122-140 | nobody holds the ball; somebody is left reaching for it exactly if it was attached and another player was |
| ObjectPool.Pool.Unlink | src/server/object.c:162-174 | the removed object becomes the first unused one, the last one takes its place, and every object knows its place |
| ObjectPool.Pool.ObjectRemove | src/server/object.c:110-174 | ball, shot and holder bookkeeping hold again, except exactly if the object was an attached ball that another player was reaching for; who stops reaching and whose connector goes off is stated exactly |
| ObjectPool.ContestedBall | src/server/object.c:122-140 | two players reach for a ball, one attaches it, it is removed, and the other is left reaching for an unused object |
| ObjectPool.Pool.BallTreasureAdd | src/server/shot.c:91-128 | the treasure has its one ball, in its box, unless the table is full |
| ObjectPool.Pool.ShotAdd | src/server/shot.c:130-191 | a shot leaves exactly if the gun is ready, shots are left, the shield is down and there is room, and the player's counter is the number of his shots |
| ObjectPool.Pool.ParticleAdd | src/server/ship.c:320-348 | a particle comes into use unless the table is full, and disturbs nothing |
| ObjectPool.Pool.NearestBall | src/server/collision.c:574-624 | the closest ball that may be picked up, if one is within reach |
| ObjectPool.Pool.AttachBall | src/server/collision.c:520-628 | a ball is attached exactly when the connector reaches its full length, the player then has it, and its box alone is empty then |
| ObjectPool.Pool.Replace | src/server/object.c:94-105 | an object goes out of use, and a ball comes back as a new one in the box of the same treasure |
| ObjectPool.Pool.SweepOne | src/server/object.c:67-105 | one object ages and is replaced if its time is up; no other object and no earlier place changes |
| ObjectPool.Pool.RemoveTimedOut | src/server/object.c:61-107 | despite the swaps and additions in the loop each object that ages does so once, exactly those whose time is up go, each treasure keeps its ball, and exactly the players who reach for such a ball or hold it let go |
| ObjectPool.LivesItsLife | src/server/object.c:67-98 | an object that nothing else touches lives for exactly as many sweeps as its life says, sparks and debris counting real frames only, and is out of use for good |
| ObjectPool.BallsLiveOn | src/server/object.c:95-105 | a ball whose time is up is replaced by one in the box of its treasure, with no owner and a full life, and its time out of the box is counted |
| ObjectPool.Pool.PartingMeans | src/server/object.c:110-150 | exactly which players the sweep parts from what they hold or reach for |
| ObjectPool.Pool.TimeOut | src/server/object.c:188-195 | every object in use has had its time |
| ObjectPool.Pool.ExactlyOneBall | src/server/shot.c:91-128 | in every valid state a treasure has exactly one ball in the table |
| ObjectPool.Pool.CountMissing | src/server/object.c:32-51 | the number of treasures, of one team or all, that are not in their boxes |
| ObjectPool.SwapOutPlayer | src/server/player.c:570-582 | filling the place with the last element loses exactly the one who leaves |
| ObjectPool.Pool.Leave | src/server/player.c:519-545 | nothing in use belongs to the leaving player, his attached balls and, unless kept, his shots have had their time, and nothing else changes |
| ObjectPool.Pool.Join | src/server/player.c:177-226 | a newcomer without balls and shots disturbs nothing |
| IdRing.RoomFor | src/server/id.c:90-102 | distinct identifiers that leave one out do not fill the ring |
| IdRing.AdvanceGet | src/server/id.c:77-88 | taking an identifier moves the ring by one place, also when the counter wraps |
| IdRing.AdvancePut | src/server/id.c:90-102 | an identifier given back does not hit one still in the ring, also when the counter wraps |
| IdRing.Ids.constructor | src/server/id.c:43-60 | all identifiers are free, in order |
| IdRing.Ids.Peek | src/server/id.c:62-75 | the next identifier, or 0 exactly if all are in use |
| IdRing.Ids.Request | src/server/id.c:77-88 | the identifier free the longest is handed out; free ones and those in use remain a partition of 1..256 |
| IdRing.Ids.Release | src/server/id.c:90-102 | an identifier in use goes to the end of the free ones; anything else is refused and changes nothing |
| Registry.Forget | src/server/player.c:584-610 | a player has dropped all ties to another: lock, war, lock bank and shoves |
| Registry.ForgetMeans | src/server/player.c:584-610 | field by field, what the others remember after a player has left |
| Registry.Registry.constructor | src/server/player.c:177-226 | an empty game is consistent |
| Registry.Registry.IdsLeft | src/server/id.c:62-75 | an identifier is free exactly as long as fewer than 256 players are in the game |
| Registry.Registry.DropSwapper | src/server/player.c:508-515 | the player is on no team's swap list, and nobody else is taken off one |
| Registry.Registry.ForgetAll | src/server/player.c:584-610 | every remaining player has forgotten him, and nothing else |
| Registry.Registry.LeaveTable | src/server/player.c:555-582 | the player has left table and team, and every identifier leads to its player's place |
| Registry.Registry.Dispossess | src/server/player.c:507-544 | the player is on no swap list and owns no object, what becomes of each of his objects is stated, and nobody else loses anything |
| Registry.Registry.PlayerRemove | src/server/player.c:488-625 | the player is out of every table, his identifier is free again, all references to him are gone, his balls and shots are given up, and the others keep their locks, banks, swap lists and objects |
| Registry.Registry.NothingRefers | src/server/player.c:488-625 | in every valid state nothing refers to a player who is not in the game: no object, lock, war, lock bank, shove or swap list |
| Registry.Registry.Number | src/server/player.c:216-218 | the newcomer gets the next identifier, and it leads to his place; he gets 0 exactly if 256 players are in the game |
| Registry.Registry.PlayerAdd | src/server/player.c:177-226 | the newcomer is the last of the table, refers to nobody, has no team, base, balls or shots, nobody else's memory changes, and the tables are consistent unless no identifier was left |
| Registry.FullGame | src/server/id.c:62-75 | a game that 256 players have entered, in which the next one gets the identifier 0 |
| RoundEnd.ComputeTeamStats | src/server/update.c:422-466 | the counters of the one pass are the set definitions, whatever the order of the players: a team is alive if it has a player in the game, otherwise dead if it has a dead or waiting one |
| RoundEnd.TeamStateMeans | src/server/update.c:436-464 | a team is alive if a member is alive or appearing, dead if none is and one is dead or waiting, and otherwise empty |
| RoundEnd.CountersMean | src/server/update.c:436-444 | the counters are the numbers of players alive or appearing, dead, and waiting |
| RoundEnd.Narrow | src/server/update.c:536-551 | one round keeps exactly the teams with the best value and finds the next best |
| RoundEnd.TopIs | src/server/update.c:502-517 | the maximum as it is searched for is the largest value but never below 0 |
| RoundEnd.ChoiceIsBest | src/server/update.c:529-614 | the rounds leave one team if and only if it beats all others by treasures destroyed, treasures left and points, and does not need negative points for it |
| RoundEnd.NegativePointsDraw | src/server/update.c:486-492 | two teams level in treasures with negative points: nobody wins, although one is ahead |
| RoundEnd.AddScores | src/server/update.c:559-565 | the points of a team are those of its players who are in the game or dead |
| RoundEnd.Choose | src/server/update.c:484-630 | nothing is decided while two teams have treasure or none was destroyed; otherwise the first round that leaves one team decides |
| RoundEnd.CountActive | src/server/team.c:314-329 | the number of active players of a team or of the game |
| RoundEnd.AllOnTeam | src/server/update.c:656-670 | a team has as many active players as the game exactly if all active players are on it |
| RoundEnd.UpdateGameStatus | src/server/update.c:468-670 | a team wins exactly if it is best by treasures or stays alive alone, and the round is drawn exactly if treasures end it without a winner or all who played are dead |
| RoundEnd.PointsMean | src/server/update.c:559-565 | the points of a team are added up over its players alive, appearing or dead |
| RoundEnd.TreasureWinMeans | src/server/update.c:502-606 | exactly when a team wins by treasures, in terms of players, treasures and points alone: it beats every other team that contends, and with points only if they are not negative |
| RoundEnd.StayingWinMeans | src/server/update.c:629-668 | exactly when a team wins by staying alive, in the same terms |
| RoundEnd.DrawMeans | src/server/update.c:608-635 | exactly when a round is drawn, in the same terms |
| MapCompression.RunLength | src/server/netserver.c:196-206 | the run is followed to its end or to 255 |
| MapCompression.Compress | src/server/netserver.c:191-214 | the in-place loop writes exactly the compressed form, never beyond what it has read |
| MapCompression.CompressedIsBytes | src/server/netserver.c:191-214 | the result consists of bytes and is never longer than the input |
| MapCompression.CompressedWellFormed | src/server/netserver.c:191-214 | every flagged byte is followed by a count from 2 to 255 |
| MapCompression.RoundTrip | src/common/setup.h:32-36 | reading the compressed form by the rule gives the map back |
| MapCompression.RoundTripExact | src/common/setup.h:32-36 | it does so if and only if no byte of the map has the high bit set |
| MapCompression.Injective | src/server/netserver.c:191-214 | different maps have different compressed forms |
| SweptCollision.Dip | src/server/collision.c:140-161 | a parabola that dips below a level between ends at or above it has its lowest point between them |
| SweptCollision.HitsMeet | src/server/collision.c:140-161 | if the test says yes the objects come closer than r at some moment of the frame |
| SweptCollision.MeetingsAreHits | src/server/collision.c:140-161 | if they do and the test says no, they began the frame too close and have been moving apart |
| SweptCollision.Exact | src/server/collision.c:140-161 | the test says yes exactly if the objects meet, except exactly when they only begin too close and move apart |
| SweptCollision.LeavingIsMissed | src/server/collision.c:149-150 | an object that leaves another at rest and is not reported |
| SweptCollision.Occurred | src/server/collision.c:140-161 | the code is exact in this sense |
| MapCollision.Straighten | src/server/collision.c:84-138 | the coordinates of both objects after straightening, along x by one rule for both objects and along y by another one for the second object |
| MapCollision.SecondIsLifted | src/server/collision.c:121-125 | on the map the rule for the second object along y never takes it to another round, so that it is straightened like the first one unless only the first one crosses the edge and it is in the upper half |
| MapCollision.CollisionOccurred | src/server/collision.c:73-162 | the whole test, straightening included, gives the answer of the unwrapped test for the straightened moves |
| MapCollision.OneWayOnly | src/server/collision.c:115-137 | along one axis objects straightened alike are seen on the only way round on which they can come near, if one of them crosses the edge or they are not nearer across it, and otherwise on a way on which they cannot |
| MapCollision.LeftBehindIsApart | src/server/collision.c:121-125 | along y a second object in the upper half beside which only the first one crosses the edge is seen on the far side of the map |
| MapCollision.SeenMeetsAround | src/server/collision.c:84-138 | objects that meet in the coordinates the code straightens do meet, some way round |
| MapCollision.StraightExact | src/server/collision.c:84-138 | objects whose moves and range are short for the map meet in the coordinates the code straightens if and only if they meet some way round, along each axis one of them crosses the edge or they are not nearer across it, and along y the second one is not in the upper half when only the first one crosses the edge |
| MapCollision.CollideExact | src/server/collision.c:73-162 | the code answers yes if and only if this holds and the objects did not only begin the frame too close and move apart |
| MapCollision.EdgeIsMissed | src/server/collision.c:84-138 | two objects at rest five pixels from each other on either side of the edge that are not reported |
| MapCollision.YEdgeIsMissed | src/server/collision.c:121-125 | a player who crosses the y edge past an object at rest, at most 15 pixels away at either end of the frame, and is not reported to hit it; with the two exchanged they are |
| MapCollision.HitEndsNear | src/server/collision.c:140-161 | objects reported to collide end the frame at a distance whose square is below those of range and relative move together |
| MapCollision.MeetIsNear | src/server/collision.c:684 | objects that come closer than r end the frame at most n blocks apart if, along each axis, r and their relative move are together at most n blocks |
| MapCollision.CollisionIsNear | src/server/collision.c:684 | objects reported to collide end the frame at most n blocks apart under this condition, or if the squares of range and relative move are together at most that of n blocks |
| MapCollision.SpeedLimitIsSlow | src/common/const.h:146 | moves of up to 65 pixels and ranges of up to 51 meet that condition for four blocks |
| MapCollision.FastEndsFar | src/server/collision.c:684 | a collision at 75 pixels a frame that ends five blocks apart |
| MapCollision.MeetingEndsFar | src/server/collision.c:684 | a meeting at 65 pixels a frame, of a ship and a ball, that ends five blocks apart |
| OptionRules.AcceptsByRank | src/server/option.c:327-440 | the nested switches accept a new setting exactly if its class is higher, or equal in a class where the last one counts |
| OptionRules.OutcomeWins | src/server/option.c:327-498 | after any history some setting is of the highest class and first or last in it, and that one is in force |
| OptionRules.OutcomeIsWinner | src/server/defaults.h:41-57 | the setting in force is the winner of init < defaults < map < map override < defaults override < password < password override < command |
| OptionRules.SettingInForce | src/server/defaults.h:41-57 | which setting of any history is in force, source by source: the last of the command line, else the first forced one of the password file, else its last, else the first forced one of the defaults, else of the map, else the last of the map, else of the defaults |
| OptionStore.HashIgnoresCase | src/server/option.c:105-126 | names that differ in the case of letters only have the same hash |
| OptionStore.HashString | src/server/option.c:105-126 | the loop ends and computes the hash |
| OptionStore.Fold | src/server/option.c:119-122 | the folding loop ends, at most at the table size |
| OptionStore.HashValue.Change | src/server/option.c:327-498 | an attempt from a permitted origin joins the history, any other changes nothing, and the value in force is the outcome of the history |
| OptionStore.HashValue.InForce | src/server/option.c:327-498 | the value in force is the winner by class of all permitted attempts |
| OptionStore.Options.GetNode | src/server/option.c:246-257 | the chain walk finds the option in either case, exactly if it is known |
| OptionStore.Options.Reachable | src/server/option.c:246-257 | a known name is in the chain of its hash value |
| OptionStore.Options.AddNode | src/server/option.c:226-240 | a new name is added to the map; a known one is refused and changes nothing |
| OptionStore.Options.AddDesc | src/server/option.c:263-293 | both names of a new option lead to one shared value with its default; it fails exactly if one of them is known |
| OptionStore.Options.GetValue | src/server/option.c:542-554 | value and origin in force, under either name and in either case |
| OptionStore.Options.SetValue | src/server/option.c:505-536 | a known option takes part in the competition of settings under either of its names, an unknown one is created, and no other option changes |
| LoginQueue.TwoAtMost | src/server/contact.c:839-844 | behind two entries of one computer there is no third |
| LoginQueue.MovedMeans | src/server/contact.c:915-932 | the entry is at its new place, those it has passed one further back, and all others where they were |
| LoginQueue.FairMoved | src/server/contact.c:896-942 | moving an entry keeps nicknames distinct and at most two entries from each computer |
| LoginQueue.WithoutOneMore | src/server/contact.c:679-794 | leaving out one more entry keeps the order of the others |
| LoginQueue.Queue.Remove | src/server/contact.c:650-660 | exactly that entry is gone, and the counter is the length |
| LoginQueue.Queue.Scan | src/server/contact.c:804-845 | the walk answers for the whole queue although it may stop early |
| LoginQueue.Queue.QueuePlayer | src/server/contact.c:796-891 | the answer does not depend on the order of the queue; success puts one new entry at the end, a renewal refreshes one entry, anything else changes nothing; nicknames stay distinct and the length within its maximum |
| LoginQueue.Queue.Splice | src/server/contact.c:915-932 | the links are those of the list with one entry moved forward |
| LoginQueue.Queue.AdvancePlayer | src/server/contact.c:896-942 | the first entry with the name moves to just behind those who have a login port, if it waits; nothing else changes |
| LoginQueue.Queue.ServeEntering | src/server/contact.c:686-712 | of the entries with ports up to where the pass stops exactly those silent too long or without a connection leave; it stops at the first one due for an acknowledgement, which it gets, and otherwise at the first waiting entry |
| LoginQueue.Queue.Grant | src/server/contact.c:759-773 | the port goes to the first waiting entry, so that entries with ports remain a prefix |
| LoginQueue.Queue.AdmitFirst | src/server/contact.c:715-777 | exactly when the first waiting entry is dropped, gets a port or has a team looked for |
| LoginQueue.Queue.ServeWaiting | src/server/contact.c:779-793 | the first waiting entry that has something due is dropped or told its place, and no other is touched |
| LoginQueue.Queue.Loop | src/server/contact.c:679-794 | one event, determined by the queue, and all its effects: who leaves, who is sent an acknowledgement, who gets a port and a team; the order never changes |
| LoginQueue.OneEvent | src/server/contact.c:679-794 | for every queue and every moment at most one thing can happen in a call |
| LoginQueue.NothingExactly | src/server/contact.c:679-794 | a call does nothing and drops nobody if and only if nothing is due for any entry and nobody who waits can be let in |
| LoginQueue.VerdictMeans | src/server/contact.c:796-891 | when each answer to a request is given, in terms of the entries and the counts |
| LoginQueue.WhoLeaves | src/server/contact.c:686-794 | exactly which entries a call removes, by the times they were last heard of and written to |
| LoginQueue.WhoIsAcked | src/server/contact.c:698-793 | which entry a call acknowledges, what is true of it, and that nothing was due for those in front of it |
| LoginQueue.WhoIsGranted | src/server/contact.c:715-773 | a port goes only to the first waiting entry, if it has answered in time, somebody may be let in and a connection can be set up |
| LoginQueue.WhoIsDropped | src/server/contact.c:715-786 | a waiting entry is dropped only for its silence, or as the first one for want of a connection, and those waiting in front of it wait on |
| LoginQueue.NothingIsDue | src/server/contact.c:679-794 | a call has no event if and only if every entry is well or waits on and nobody may be let in |

## Left out

- Sockets, signals, timers, host names, files, XML and web pages: a send is a datagram handed to the network, a refused
  one, or one that would block.
- Sockbufs.Sockbuf.Flush: does not model a query of the socket error that fails itself (src/common/net.c:245-248), after
  which the data stay in the buffer of a connection that is then destroyed.
- Socket buffers over a byte stream (src/common/net.c:255-273, 304-402): the server's connections use datagrams.
- The client beyond its rule for accepting and acknowledging (src/server/netserver.c:79-89); it may or may not accept a
  packet that overlaps what it has.
- A run of ReliableProtocol ends with a connection that is dropped: a send that is refused for good and an acknowledgement
  that covers more than was appended are not steps of it.
- 32-bit overflow of stream offsets, loop counters and squared distances, and changes of the frame rate while the server
  runs.
- Connections.Connection.HandleSetup: does not model the call of Handle_input for waiting acknowledgements
  (src/server/netserver.c:832-840) nor the start time that it pushes back; acknowledgements are steps of their own.
- Connections.Connection.SetState: does not model start times and timeouts, nor Connections.Connection.Destroy the buffers
  that are released.
- Rounding: SweptCollision computes in reals where the server computes in double precision; distances to balls are
  parameters.
- ShipGrid: the text of a ship's shape, and special points outside the grid.
- Motion of players, balls and shots, springs, thrust, walls and robot steering; the position, velocity and team colour of
  objects.
- Teams.TeamPlay.Login: the choice of a team (src/server/team.c:143-262), names already in use, and errors after a base has
  been found; the error path of a failed pick is the removal of the newcomer.
- Counters of robots, paused players and operators, scores, messages and rank files.
- Registry.Registry.PlayerRemove: closing the connection and telling the other clients.
- RoundEnd.UpdateGameStatus: play without teams, and what a decision leads to.
- OptionStore: options without a value structure, release of memory, and parsing; the check of origins against a
  description is a set of permitted origins.
- OptionStore.Options.AddDesc: does not model names of 2 GiB and more, whose hash would depend on overflow.
- LoginQueue.Queue.Loop: which robots are kicked and which team is found; whether there is room and a team, and the port
  that a new connection gets, are parameters.
- Names cut to their buffers' lengths, and host names.
- CellGrid keeps the list of used blocks as a sequence, without the linked list of src/server/list.c.
- CellGrid.Cells.Round: collisions of players with each other and the attaching of balls (src/server/collision.c:645-671)
  are not part of it; a ball whose time was up before the round and that is attached in its course would come to life
  again outside the chains.
- PlayerHits.Strike: velocities after a collision, scores, messages and the robots' anger.  The fuel that debris costs, which
  follows from its mass and velocity, is given with the object: what a strike does to velocities comes after its cost is
  known, and what has been struck is expired, a ball, or debris that killed and kept its velocity.
