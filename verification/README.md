# Verification model of the weChat- client and servers

A Dafny model of the stateful parts of a chat system: a Qt client, chat servers built on asio, a status server that
assigns clients to chat servers, and a gateway. Each part has a specification written as pure functions or predicates on
a state, classes in the form of the original that are proved to move by that specification, and lemmas about whole runs
of it.

| file | what it models |
|---|---|
| `Seqs.dfy`, `Integers.dfy` | an option type, sequence facts and division as in C++ |
| `Wire.dfy` | the frame format (2-byte id, 2-byte length, body; big-endian) and its one-shot reference parser |
| `NetWorkBuffer.dfy` | the growable byte queue with in-place compaction |
| `ChatSession.dfy` | the server's decoder, cut at the first refused request, and its single-writer pump |
| `TcpManager.dfy` | the client's decoder and sender |
| `Stream.dfy` | both ends together: sends, partial writes, arrivals and decoding in any interleaving |
| `CropGeometry.dfy`, `ImageCropperLabel.dfy` | the crop rectangle: placement, ten zones by seven shapes, back-projection |
| `CropDrags.dfy` | what the mouse does to the crop rectangle, by coordinates alone |
| `LoadBalance.dfy`, `TokenTable.dfy`, `StatusServer.dfy` | server assignment and login tokens under interleaved calls |
| `Forwarding.dfy`, `Routing.dfy` | sessions, routes in Redis, channels between servers, forwarded messages |
| `RoutedMessages.dfy` | what is forwarded, to whom and on whose behalf, told by the JSON objects |
| `MysqlConnectPool.dfy` | the connection pool as a monitor, `getConn` with its wait, the deleter |
| `ScrollWidget.dfy`, `ClientMessages.dfy` | the client's message store and the conversation on display |
| `ReplyQueues.dfy` | how the client matches replies to what it asked for |
| `UrlDecode.dfy` | percent-decoding (section 2.1 of RFC 3986) |

Where a promised property does not hold of the code as it is, the model keeps the code and states exactly when it holds:

- Frames round-trip if and only if every body fits the 16-bit length field, which both senders truncate
  (`Wire.RoundTrip`, `Streams.QuiescentIff`).
- A free crop rectangle stays inside the image over a run if and only if no side dragged by offset is moved closer to
  the image's edge than its gap to the mouse allows (`ImageCropper.FreeRunInsideIff`); in one drag without refused moves
  the press decides: pressed outwards of the side or on it, it stays inside whatever the moves, and pressed inwards some
  move takes it out (`ImageCropper.GapDecides`, example `ImageCropper.BottomDragLeavesImage`), while a refused move voids
  that (`ImageCropper.RefusedMoveLeadsOut`). The LEFT side is compared with the minimum height, as in the source.
- What is copied of the original lies less than one pixel from the crop rectangle at the left and top, but can miss by
  more at the right and bottom, since position and size are truncated apart; by less than one if and only if the two
  truncations cut off less than one together (`ImageCropper.EdgesScaledBack`, example `ImageCropper.FarEdgeMisses`).
- A route dangles if and only if a session logs in again under another uid while its route stands
  (`Routing.NoDanglingIff`, example `Routing.SecondLoginDangles`), and a logged-in user is cut off if and only if a second
  session logs in under the same uid (`Routing.AllRoutedIff`, example `Routing.SecondSessionSteals`, in which the
  first session's close then cuts off the second: `Routing.CloseTakesRoute`).
- A SEND_MSG with a missing field is dropped if and only if the session has no earlier addressee or that one has no
  route; else it goes to the earlier addressee (`RoutedMessages.IncompleteDroppedIff`, example
  `RoutedMessages.IncompleteReachesPrevious`).
- Local and remote delivery agree for chat messages only (`Forwarding.TransparentIff`).
- One event makes the display differ from the store if and only if it leaves a non-empty conversation "-1"
  (`ClientMessages.FaithfulIff`, example `ClientMessages.LeftoversStay`); over any run the display is what "-1" held when
  last left and then the stored conversation (`ClientMessages.DisplayAfterAnyRun`).
- Over a run every callback is taken by its own reply if and only if no account search is answered while a callback is
  queued (`ReplyQueues.CallbacksMatchIff`, example `ReplyQueues.SearchTakesCallback`).
- A head image goes to a label queued as many places too early as head replies failed before
  (`ReplyQueues.HeadReplyStep`, example `ReplyQueues.FailureShiftsImage`).
- The load-balance bound holds although `servers_[0]` is copied before the lock, provided calls in flight count as
  outstanding (`LoadBalance.LoadBalanceBound`), and it cannot be improved (`LoadBalance.BoundIsTight`).

Assumptions. Handlers, lock-protected sections and Qt slots are atomic; a completed asynchronous write has sent a prefix
of the bytes readable when it was issued; `memcpy` within the buffer copies upwards; TCP delivers bytes in order; JSON
written and parsed again is the same; tokens and uuids are fresh; a widget size returned by Qt's `scaled` is no larger
than requested; `scaledRate` is an exact ratio; Qt signals are delivered directly; the server answers a client's requests
in order.

## Model

| member | source | states |
|---|---|---|
| Wire.ParseSound | client/tcpmanager.cpp:48-71 | parsing loses nothing: frames found and rest spell the input again, every body fits, the rest holds no further frame |
| Wire.ParseAppend | server/src/ChatServer/ChatSession.cpp:45-80 | chunking law: parsing a longer stream is parsing its first part and then the rest of that with what follows |
| Wire.ParseEncoded | server/src/ChatServer/ChatSession.cpp:22-27 | frames that fit, encoded, followed by any bytes, are parsed back first and the bytes parsed on |
| Wire.ParseTruncated | client/tcpmanager.cpp:63-66 | what any frame becomes at the receiver: a first frame cut to the truncated length, then the frames the remainder of its body spells |
| Wire.RoundTrip | server/src/ChatServer/ChatSession.cpp:25-27 | encode then parse gives the frames back if and only if every body is at most 65535 bytes, because the length is truncated |
| Wire.PrefixOfEncoding | client/tcpmanager.cpp:49-70 | whatever prefix of an encoding arrived, the frames parsed are a prefix of those encoded and the rest is accounted for byte by byte |
| Wire.BytesInOrder | server/src/common/NetWorkBuffer.cpp:43-47 | two bytes to a number, and smaller numbers have lexicographically smaller bytes |
| Wire.FrameLayout | server/src/ChatServer/ChatSession.cpp:25-27 | a frame byte by byte: id, length of the body modulo 65536, body, each number with its high byte first |
| NetWorkBuffers.NetWorkBuffer.constructor | server/src/common/NetWorkBuffer.h:7 | an empty queue of the given capacity, 1024 by default |
| NetWorkBuffers.NetWorkBuffer.RetrieveN | server/src/common/NetWorkBuffer.h:12 | drops the first n readable bytes, or nothing if there are fewer |
| NetWorkBuffers.NetWorkBuffer.RetrieveAsString | server/src/common/NetWorkBuffer.cpp:5-13 | takes exactly the first n readable bytes, or nothing if there are fewer |
| NetWorkBuffers.NetWorkBuffer.RetrieveAllString | server/src/common/NetWorkBuffer.cpp:15-18 | takes all readable bytes and leaves none |
| NetWorkBuffers.NetWorkBuffer.RetrieveUInt16 | server/src/common/NetWorkBuffer.cpp:20-29 | takes the number whose big-endian form is the first two readable bytes; with fewer it gives 0 and takes nothing |
| NetWorkBuffers.NetWorkBuffer.WriteString | server/src/common/NetWorkBuffer.cpp:31-34 | appends the string to the readable bytes |
| NetWorkBuffers.NetWorkBuffer.PrepareUInt16 | server/src/common/NetWorkBuffer.cpp:43-47 | appends the big-endian form of the number |
| NetWorkBuffers.NetWorkBuffer.Write | server/src/common/NetWorkBuffer.cpp:36-41 | appends the bytes; indices stay in order and capacity changes as `AfterWrite` says |
| NetWorkBuffers.NetWorkBuffer.EnsureWriteSafe | server/src/common/NetWorkBuffer.cpp:49-66 | makes room for len bytes by nothing, by compaction or by growth, and leaves the readable bytes unchanged |
| NetWorkBuffers.NetWorkBuffer.MoveDown | server/src/common/NetWorkBuffer.cpp:55 | the overlapping upward copy puts the original bytes at the front |
| NetWorkBuffers.GrowsOnlyWhenFull | server/src/common/NetWorkBuffer.cpp:49-65 | the array is reallocated, larger by the bytes written, if and only if content and new bytes together exceed the capacity; the content moves to the front exactly if that makes it fit |
| NetWorkBuffers.CapacityBound | server/src/common/NetWorkBuffer.cpp:49-65 | after any run of writes and retrieves the capacity is at most the initial one or twice the peak content after a write |
| ChatSessions.ChatSession.SendData | server/src/ChatServer/ChatSession.cpp:22-32 | queues the encoding of the frame, starts a write only if none is outstanding, and keeps all bytes sent = delivered ++ readable |
| ChatSessions.ChatSession.HandlingWrite | server/src/ChatServer/ChatSession.cpp:84-91 | delivers the prefix written, keeps the rest, goes on writing exactly while bytes remain, and keeps all bytes sent = delivered ++ readable |
| ChatSessions.ChatSession.HandlingRead | server/src/ChatServer/ChatSession.cpp:38-82 | the decode loop hands on exactly the one-shot parse of undecoded and new bytes, up to the first refused request, which closes the session; a read error closes it |
| ChatSessions.ChatSession.NextRequest | server/src/ChatServer/ChatSession.cpp:49-58 | one round of the loop takes the first frame of what is undecoded, or finds that there is none |
| ChatSessions.PumpSendKeeps | server/src/ChatServer/ChatSession.cpp:28-31 | sending keeps: be_sending_ exactly when one write is outstanding, exactly when bytes are readable, and that write a prefix of them |
| ChatSessions.PumpDoneKeeps | server/src/ChatServer/ChatSession.cpp:86-90 | a completion keeps the same discipline |
| ChatSessions.StepOutcome | server/src/ChatServer/ChatSession.cpp:59-64 | once the next frame is judged, either all so far are accepted or the whole read amounts to stopping there |
| ChatSessions.ChunkingIndependence | server/src/ChatServer/ChatSession.cpp:45-80 | however a stream is cut into reads, the requests handed on are those of the one-shot parse up to and including the first refused, and the session is open exactly if none was |
| TcpManagers.TcpManager.OnDataReady | client/tcpmanager.cpp:48-71 | the loop handles exactly the frames of the one-shot parse of undecoded and new bytes and keeps the rest |
| TcpManagers.TcpManager.SlotSendData | client/tcpmanager.cpp:73-82 | writes the same encoding as the server's sendData |
| TcpManagers.FrameReady | client/tcpmanager.cpp:63-66 | a parsed header and enough data are exactly the first frame of the one-shot parse |
| TcpManagers.ChunkingIndependence | client/tcpmanager.cpp:49-70 | however the stream is cut into arrivals, the client handles the frames of the one-shot parse |
| Streams.NoByteLost | server/src/ChatServer/ChatSession.cpp:22-91 | in every reachable state no byte is lost, duplicated or reordered between sendData and the client's decoder, and the write pump is disciplined |
| Streams.EndToEnd | client/tcpmanager.cpp:48-71 | in every reachable state the frames handled are a prefix of those sent, and the encoding of the others is undecoded ++ in flight ++ buffered bytes |
| Streams.QuiescentIff | server/src/ChatServer/ChatSession.cpp:26-27 | with nothing buffered or in flight the client has handled exactly what was sent if and only if every body fits |
| Streams.PumpDrains | server/src/ChatServer/ChatSession.cpp:84-91 | without new sends each positive completion shortens the backlog; the pump can go on exactly while bytes remain and stops, not sending, exactly when none do |
| Streams.DecodersAgree | server/src/ChatServer/ChatSession.cpp:47-80 | on one stream, however each side's is cut, the session hands on what the client would handle, all of it if no request is refused |
| Streams.RequestsReachServer | client/tcpmanager.cpp:73-82 | requests reach the handler in order and none twice; all of them, up to a refusal, once the stream has arrived |
| CropGeometry.SquareDragSafe | client/imagecropperlabel.cpp:453-704 | in every zone a drag keeps a square crop rectangle square and inside the image, and a resized side spans both minimums |
| ImageCropper.ImageCropperLabel.constructor | client/imagecropperlabel.h:135-162 | initial shape, ratio, flags, drag square of 8 and minimums of 16 |
| ImageCropper.ImageCropperLabel.SetCropper | client/imagecropperlabel.cpp:94-98 | sets shape and fixed size and puts the crop rectangle back in the middle |
| ImageCropper.ImageCropperLabel.SetCropperMinimumSize | client/imagecropperlabel.h:69-70 | sets the two minimums and nothing else |
| ImageCropper.ImageCropperLabel.SetOriginalImage | client/imagecropperlabel.cpp:21-55 | places the image by the side it fills first and puts the crop rectangle back |
| ImageCropper.ImageCropperLabel.PlaceImage | client/imagecropperlabel.cpp:24-44 | ratio and image rectangle are those of the side filled first |
| ImageCropper.ImageCropperLabel.ResetCropperPos | client/imagecropperlabel.cpp:122-152 | centred, with the scaled fixed size or three quarters of the shorter side shown |
| ImageCropper.ImageCropperLabel.MousePressEvent | client/imagecropperlabel.cpp:426-429 | remembers the position and that the button is down |
| ImageCropper.ImageCropperLabel.MouseMoveEvent | client/imagecropperlabel.cpp:431-707 | the nested switch over zones and shapes moves the rectangle as the zone-uniform `Dragged` does, only with the button down and inside the image |
| ImageCropper.ImageCropperLabel.DragBottomRight | client/imagecropperlabel.cpp:456-494 | this case agrees with the uniform corner drag |
| ImageCropper.ImageCropperLabel.DragRight | client/imagecropperlabel.cpp:495-513 | this case agrees with the uniform side drag |
| ImageCropper.ImageCropperLabel.DragBottom | client/imagecropperlabel.cpp:514-532 | this case agrees with the uniform side drag by offset |
| ImageCropper.ImageCropperLabel.DragBottomLeft | client/imagecropperlabel.cpp:533-569 | this case, which fixed shapes take too, agrees with the uniform corner drag |
| ImageCropper.ImageCropperLabel.DragLeft | client/imagecropperlabel.cpp:570-588 | this case, compared with the minimum height, agrees with the uniform side drag by offset |
| ImageCropper.ImageCropperLabel.DragTopLeft | client/imagecropperlabel.cpp:589-625 | this case agrees with the uniform corner drag |
| ImageCropper.ImageCropperLabel.DragTop | client/imagecropperlabel.cpp:626-644 | this case agrees with the uniform side drag by offset |
| ImageCropper.ImageCropperLabel.DragTopRight | client/imagecropperlabel.cpp:645-681 | this case, with its own tie rule, agrees with the uniform corner drag |
| ImageCropper.ImageCropperLabel.DragInside | client/imagecropperlabel.cpp:682-703 | shifts by each offset unless that would leave the image, keeping the size |
| ImageCropper.ImageCropperLabel.MouseReleaseEvent | client/imagecropperlabel.cpp:709-713 | ends the drag |
| ImageCropper.BackProjection | client/imagecropperlabel.cpp:158-165 | for a crop rectangle inside the image shown, each of left, top, width and height copied is the number of whole original pixels in the crop's; the part copied is inside the original, and square if the crop is |
| ImageCropper.EdgesScaledBack | client/imagecropperlabel.cpp:159-162 | per axis, scaled back: the near edge is off by less than one original pixel, the far edge by less than two, and by less than one if and only if both truncations together cut off less than one |
| ImageCropper.CopiedEdges | client/imagecropperlabel.cpp:159-162 | so for the four edges of what is copied |
| ImageCropper.FarEdgeMisses | client/imagecropperlabel.cpp:159-162 | a concrete crop rectangle whose right edge is missed by more than one original pixel |
| ImageCropper.PlacementFits | client/imagecropperlabel.cpp:31-44 | in both scaling branches the image lies centred inside the label and no larger than the original scaled |
| ImageCropper.PlacementExact | client/imagecropperlabel.cpp:31-44 | the image shown fills the label in one direction and has in each the whole pixels of the original, scaled |
| ImageCropper.ResetInside | client/imagecropperlabel.cpp:122-152 | after setOriginalImage the crop rectangle of a free or square shape is a square inside the image |
| ImageCropper.ResetExact | client/imagecropperlabel.cpp:122-152 | the reset rectangle is in the middle to half a pixel, three quarters of the shorter side shown rounded down, or the fixed size scaled and rounded down |
| ImageCropper.EventKeepsSafeSquare | client/imagecropperlabel.cpp:426-713 | every press, move or release keeps a square crop square, inside the image and, if resized, at least both minimums |
| ImageCropper.CropSafety | client/imagecropperlabel.cpp:21-165 | from setOriginalImage on, after any events, the square shapes stay square inside the image and what is copied is a square part of the original |
| ImageCropper.GapKeptIff | client/imagecropperlabel.cpp:514-644 | a move keeps the distance from edge to mouse if and only if it passes the minimum test or has no offset; a refused one leaves the rectangle alone |
| ImageCropper.DeltaDrag | client/imagecropperlabel.cpp:514-644 | a BOTTOM, TOP or LEFT drag without refusals keeps the gap of the press, so the edge overshoots and the span falls short by the gap at most |
| ImageCropper.BottomDragLeavesImage | client/imagecropperlabel.cpp:524-528 | a concrete drag that ends with the bottom edge outside the image |
| ImageCropper.GapDecides | client/imagecropperlabel.cpp:514-644 | at the press of a BOTTOM, TOP or LEFT drag: all refusal-free moves leave the rectangle inside the image if and only if the mouse is not inwards of the side |
| ImageCropper.RefusedMoveLeadsOut | client/imagecropperlabel.cpp:514-644 | whatever the gap, two moves inside the image, the first one refused, take a side dragged by offset out of the image |
| ImageCropper.FreeRunInsideIff | client/imagecropperlabel.cpp:426-713 | over every run of mouse events a free crop rectangle is inside the image all along if and only if no accepted offset move overshoots its gap |
| ImageCropper.FreeCropSafety | client/imagecropperlabel.cpp:21-165 | from setOriginalImage on, after any such run, what is copied for a free shape is a part of the original |
| CropDrags.ZoneOfHandle | client/imagecropperlabel.cpp:278-304 | a move that starts a drag is in the zone of the clockwise first handle within half a drag square, of eight at corners and middles of sides; near none it is INSIDE if and only if strictly inside |
| CropDrags.SquareCornerFollows | client/imagecropperlabel.cpp:453-681 | a square's corner: when both distances pass their minimums and the corner lands in the image, the opposite corner stays and the side is the larger distance to the mouse; else nothing moves |
| CropDrags.FreeEdgesFollow | client/imagecropperlabel.cpp:453-681 | a free corner or RIGHT side: each dragged edge goes to the mouse if and only if its distance passes its minimum, the others stay |
| CropDrags.FreeSidesShift | client/imagecropperlabel.cpp:514-644 | BOTTOM, LEFT and TOP sides go by the mouse's offset when its distance passes the minimum height |
| CropDrags.InsideShifts | client/imagecropperlabel.cpp:682-703 | an INSIDE move keeps the size and shifts by exactly the offset in each direction that has room, else not |
| CropDrags.ElseNothingMoves | client/imagecropperlabel.cpp:438-448 | hovering, a mouse outside the image and every handle without effect leave the rectangle alone |
| CropDrags.PressStartsAfresh | client/imagecropperlabel.cpp:426-434 | after a release and a press the handle is looked for anew and offsets count from the press |
| CropDrags.ZoneStays | client/imagecropperlabel.cpp:433-443 | once a move was made in the image the zone stays, wherever the mouse goes |
| CropDrags.NothingMovesUnpressed | client/imagecropperlabel.cpp:438-439 | over any run without a press the rectangle stays |
| CropDrags.InsideDragFollows | client/imagecropperlabel.cpp:682-703 | after any moves with room the rectangle is that of the start, shifted by the mouse's whole way |
| LoadBalance.Best | server/src/StatusServer/StatusServer.cpp:29-38 | the running minimum is the first smallest count below the copied one, or the copy itself |
| LoadBalance.ScanKeepsInv | server/src/StatusServer/StatusServer.cpp:29-38 | an assignment made by comparing with a stale copy keeps every server within k of every other |
| LoadBalance.LoginKeepsInv | server/src/StatusServer/StatusServer.cpp:66-74 | a counted login keeps it |
| LoadBalance.LoadBalanceBound | server/src/StatusServer/StatusServer.cpp:20-76 | in every reachable state count plus outstanding of any server is at most any count plus k, so counts differ by at most k |
| LoadBalance.BoundIsTight | server/src/StatusServer/StatusServer.cpp:29-38 | some run with k outstanding makes two counts differ by exactly k |
| StatusServers.StatusServerImpl.constructor | server/src/StatusServer/StatusServer.cpp:4-18 | two servers with different names, no logins, no tokens |
| StatusServers.StatusServerImpl.GetChartServer | server/src/StatusServer/StatusServer.cpp:20-47 | without interleaving: the uid's token is the new one, and the server given has the smallest count |
| StatusServers.StatusServerImpl.EraseSession | server/src/StatusServer/StatusServer.cpp:22-27 | the first locked section is the erase step of the token table |
| StatusServers.StatusServerImpl.SelectServer | server/src/StatusServer/StatusServer.cpp:29-38 | the loop, started from a possibly stale copy, selects the server the balance says |
| StatusServers.StatusServerImpl.InsertToken | server/src/StatusServer/StatusServer.cpp:78-82 | the last locked section is the insert-if-absent step of the token table |
| StatusServers.StatusServerImpl.Login | server/src/StatusServer/StatusServer.cpp:49-76 | succeeds exactly for the token held, which it keeps; then exactly the servers of that name count one more, modulo 2^32 |
| StatusServers.LoginBumpsOne | server/src/StatusServer/StatusServer.cpp:66-74 | with distinct names a login is one login step of the balance |
| TokenTable.SourceIsInForce | server/src/StatusServer/StatusServer.cpp:22-27 | the entry of a uid is from the first insert since its last erase, and is missing exactly if the uid was erased since every insert |
| TokenTable.ValidatesIff | server/src/StatusServer/StatusServer.cpp:53-57 | a token validates if and only if it was inserted for that uid, first since the last erase, and not erased since |
| TokenTable.ValidWasIssued | server/src/StatusServer/StatusServer.cpp:53-57 | a token that validates was issued to that uid with no erase since |
| TokenTable.ErasedNeverValid | server/src/StatusServer/StatusServer.cpp:22-27 | a token issued before an erase of its uid never validates again |
| TokenTable.OneTokenWhenFinished | server/src/StatusServer/StatusServer.cpp:20-47 | once all calls for a uid have finished exactly one token validates, from a call overlapping the last erase |
| Forwarding.PublishedIsRecovered | server/src/ChatServer/TcpServer.cpp:50-62 | the subscriber recovers content, id and session from a published object |
| Forwarding.TransparentIff | server/src/ChatServer/ChatSession.cpp:127-187 | the recipient is sent the same locally and through the channel if and only if the request is a chat message |
| Routing.Cluster.Accept | server/src/ChatServer/TcpServer.cpp:21-31 | a new session, not logged in, under a fresh uuid |
| Routing.Cluster.HandingLogin | server/src/ChatServer/LogicSystem.cpp:49-90 | succeeds exactly with both fields and approval; then session and route are those of the login |
| Routing.Cluster.ServeLogin | server/src/ChatServer/ChatSession.cpp:59-64 | a login, or the close that follows its failure |
| Routing.Cluster.HandingRequest | server/src/ChatServer/LogicSystem.cpp:420-456 | fails exactly for complete requests with wrong credentials; incomplete ones leave the addressee as it was |
| Routing.Cluster.ServeRequest | server/src/ChatServer/ChatSession.cpp:59-76 | handler, then close on failure or forwarding to the addressee |
| Routing.Cluster.ForwardMsg | server/src/ChatServer/ChatSession.cpp:94-188 | one delivery to a session of the same server, or one packet on the other server's channel, or nothing without a route |
| Routing.Cluster.Close | server/src/ChatServer/ChatSession.cpp:191-212 | the session goes, with the route of its uid if it had logged in |
| Routing.Cluster.Subscribed | server/src/ChatServer/TcpServer.cpp:43-66 | a packet is handed to the session it names if that is still open on this server, else dropped |
| Routing.NoDanglingIff | server/src/ChatServer/LogicSystem.cpp:70-82 | one step keeps every route naming an open session logged in as its uid, if and only if it is no second login under another uid over a standing route |
| Routing.AllRoutedIff | server/src/ChatServer/ChatSession.cpp:191-198 | one step keeps every logged-in session reachable by its uid's route, if and only if it is no login under a uid whose route names another session |
| Routing.RunKeepsInv | server/src/ChatServer/ChatSession.cpp:94-212 | in every reachable state routes are good, packets name their addressee's session or a closed one, deliveries went to their addressee, numbers occur once |
| Routing.RightRecipientOnce | server/src/ChatServer/TcpServer.cpp:43-66 | every message is delivered at most once, and a complete SEND_MSG only to a session logged in as its own toid, even late |
| Routing.NoMoreThanRequests | server/src/ChatServer/ChatSession.cpp:117-188 | deliveries and packets together never outnumber the requests made |
| Routing.SecondLoginDangles | server/src/ChatServer/LogicSystem.cpp:70-82 | a concrete run that leaves a route to a closed session |
| Routing.CloseTakesRoute | server/src/ChatServer/ChatSession.cpp:191-198 | closing a logged-in session removes exactly the route of its uid, whichever session that names |
| Routing.SecondSessionSteals | server/src/ChatServer/LogicSystem.cpp:70-82 | a concrete run in which a second session under one uid cuts off the first, and is cut off itself when the first closes |
| Routing.DeliveredInOrderPerPair | server/src/ChatServer/ChatSession.cpp:117-188 | in every reachable state what one session forwarded to one other session was delivered in the order sent |
| RoutedMessages.SilentIff | server/src/ChatServer/LogicSystem.cpp:420-456 | every request: it closes the session if and only if complete with another uid or token, else remembers whom it is for; it sends nothing if and only if it closes, is refused or declined, has no addressee with a route, or no remark on file |
| RoutedMessages.RequestAdds | server/src/ChatServer/ChatSession.cpp:117-188 | otherwise exactly one item goes out, made of the session's uid and the request's fields, to the addressee's session at once or from its channel |
| RoutedMessages.AcceptedMessageReaches | server/src/ChatServer/ChatSession.cpp:127-141 | an accepted SEND_MSG: the addressee's session is handed success 1 and one item with the sender's uid, the addressee, and the request's text and time |
| RoutedMessages.AcceptedApplicationReaches | server/src/ChatServer/ChatSession.cpp:142-153 | a friend request: the item is the sender's uid and the application text |
| RoutedMessages.AcceptanceReaches | server/src/ChatServer/ChatSession.cpp:154-167 | an acceptance: the item is the new friend's uid and the remark on file |
| RoutedMessages.IncompleteDroppedIff | server/src/ChatServer/LogicSystem.cpp:430-434 | an incomplete SEND_MSG goes nowhere if and only if the session has no previous addressee or that one has no route; else it goes to the previous addressee, missing fields empty |
| RoutedMessages.IncompleteReachesPrevious | server/src/ChatServer/LogicSystem.cpp:430-434 | a concrete run in which an incomplete SEND_MSG reaches the addressee of the one before |
| RoutedMessages.LoginOutcome | server/src/ChatServer/LogicSystem.cpp:49-90 | a login leaves the session open if and only if both fields are there and the status server approved; then uid, token and route are those of the request |
| RoutedMessages.NothingForged | server/src/ChatServer/ChatSession.cpp:117-188 | in every reachable state everything handed over is the item of an earlier request of the session it is tagged with, under a uid that session logged in with before, or the empty one |
| MysqlConnectPools.MysqlConnectPool.constructor | server/src/common/MysqlConnectPool.cpp:4-24 | as many different connections as the size says, all idle, and no thread waiting |
| MysqlConnectPools.MysqlConnectPool.TakeFront | server/src/common/MysqlConnectPool.cpp:44-55 | is the taking step of the monitor, and lends the front connection itself, or a new one exactly if it was last used 1000 * idleTime milliseconds ago or more |
| MysqlConnectPools.MysqlConnectPool.GiveBack | server/src/common/MysqlConnectPool.cpp:55-59 | the deleter is the return step of the monitor: exactly that loan ends, its connection is last in the queue, used now, and one waiter is woken |
| MysqlConnectPools.MysqlConnectPool.PerformAll | server/src/common/MysqlConnectPool.cpp:37-60 | the pool's own methods, called in the order of any run of the monitor, move the pool as that run |
| MysqlConnectPools.MysqlConnectPool.GetConn | server/src/common/MysqlConnectPool.cpp:37-60 | the wait loop among other threads' steps is a run of the monitor with exactly the thread's own looks in it; it ends with a loan, shared with nobody, of what was in front at the last look, replaced exactly if idle too long, or asleep at an empty queue |
| MysqlConnectPools.TakeKeepsInv | server/src/common/MysqlConnectPool.cpp:39-54 | taking or going to sleep keeps conservation, no sharing and enough woken threads |
| MysqlConnectPools.ReturnKeepsInv | server/src/common/MysqlConnectPool.cpp:55-59 | returning and notifying one waiter keeps them |
| MysqlConnectPools.PoolSafety | server/src/common/MysqlConnectPool.cpp:37-60 | over every interleaving idle + lent = size, no connection has two holders, and idle connections never outnumber woken threads while one sleeps |
| MysqlConnectPools.RecheckBorrows | server/src/common/MysqlConnectPool.cpp:40-54 | a woken thread that finds an idle connection borrows the one in front, or a new one if that is stale |
| MysqlConnectPools.ConnectionsKept | server/src/common/MysqlConnectPool.cpp:44-58 | over every run in which none is idle too long when its turn comes the pool never reconnects: idle and lent are the connections of the start |
| MysqlConnectPools.FrontExpiresFirst | server/src/common/MysqlConnectPool.cpp:44-58 | over every run with a clock that does not go back, if the connection in front is not stale then none in the queue is |
| ScrollWidgets.CustomerScrollWidget.AppendWidget | client/customerscrollwidget.cpp:32-41 | appends above the stretch unless the id is there; map and layout stay in agreement |
| ScrollWidgets.CustomerScrollWidget.RemoveWidget | client/customerscrollwidget.cpp:57-63 | removes exactly the widget of that id from map and layout, if there is one |
| ScrollWidgets.CustomerScrollWidget.ContainId | client/customerscrollwidget.h:19 | true exactly if a widget of that id is laid out |
| ClientMessages.DecimalInjective | client/chatcontentmsg.cpp:119-137 | different message ids give different widget ids |
| ClientMessages.Global.AppendMsg | client/global.cpp:17-26 | the message is stored last in its conversation under the next id, and the content widget is brought up to date |
| ClientMessages.Global.OnFriendMsgCome | client/global.cpp:65-85 | every conversation grows by exactly the items whose other party it is with, in order, with their text, time and owner, under new increasing ids |
| ClientMessages.ArrivalsStored | client/global.cpp:73-83 | that, over the run of arrivals, for every conversation |
| ClientMessages.NothingUnderOneself | client/global.cpp:81-82 | items between different users never go to the user's own conversation |
| ClientMessages.ArrivalsShown | client/chatcontentmsg.cpp:61-65 | the display grows by exactly the items of the conversation selected, each bubble with the item's text, time and owner |
| ClientMessages.ChatContentMsg.OnMessageCome | client/chatcontentmsg.cpp:61-65 | the display is brought up to date exactly if the conversation is the one selected |
| ClientMessages.ChatContentMsg.SendMsg | client/chatcontentmsg.cpp:87-112 | an own message is stored and shown unless it is empty or nobody is selected |
| ClientMessages.SentStoredAndShown | client/chatcontentmsg.cpp:87-112 | so it is last in the selected conversation, as the user's, and the one bubble more; otherwise nothing changes |
| ClientMessages.ChatContentMsg.SwitchUser | client/chatcontentmsg.cpp:37-59 | another conversation is selected and the display changed over |
| ClientMessages.ChatContentMsg.FlushMsgInterface | client/chatcontentmsg.cpp:114-140 | the two loops remove what the old conversation showed and append what is missing of the current one |
| ClientMessages.FaithfulIff | client/chatcontentmsg.cpp:114-140 | any event keeps ids unique, and keeps the display equal to the stored conversation if and only if it does not leave a non-empty "-1" |
| ClientMessages.LeftoversStay | client/chatcontentmsg.cpp:114-125 | a concrete run after which the display is not the stored conversation |
| ClientMessages.DisplayAfterAnyRun | client/chatcontentmsg.cpp:37-140 | over every run the bubbles shown are what "-1" held when it was last left, then the messages stored for the selected user, once each and in order; exact condition for the former to be none |
| ClientMessages.DisplayEqualsStore | client/chatcontentmsg.cpp:37-140 | over every run that stores nothing under "-1" the bubbles shown are the messages stored for the selected user, once each and in order, with the same text, time and owner |
| ClientMessages.DisplayEqualsStoreFromStart | client/chatcontentmsg.cpp:15-30 | so it is from the widget's construction, with any messages stored before it |
| ReplyQueues.ChatWidget.SendRequest | client/chatwidget.cpp:260-274 | each request queues its callback or its label as it goes out |
| ReplyQueues.ChatWidget.OnReply | client/chatwidget.cpp:294-364 | which queue a reply pops, by its kind and outcome |
| ReplyQueues.MatchedIff | client/chatwidget.cpp:333-341 | one event keeps callbacks matched to their own replies if and only if no search reply finds a callback queued |
| ReplyQueues.CallbacksMatchIff | client/chatwidget.cpp:180-190 | over every run each callback is taken by the reply to the request that queued it if and only if no search reply ever finds a callback queued |
| ReplyQueues.SearchTakesCallback | client/chatwidget.cpp:333-341 | a concrete run in which the reply to a search takes another request's callback |
| ReplyQueues.NoSearchNoIntercept | client/chatwidget.cpp:297-301 | runs without account searches are such runs |
| ReplyQueues.SearchReplyAsks | client/chatwidget.cpp:333-362 | a search reply queues a label and asks for a head image if and only if it takes no callback and the user was found or the search page is gone |
| ReplyQueues.HeadReplyStep | client/chatwidget.cpp:313-329 | the j-th successful head reply goes to the j-th label queued and was asked for the label as many places later as head replies failed before |
| ReplyQueues.FailureShiftsImage | client/chatwidget.cpp:313-329 | a concrete run in which a refused head image shifts the next one by one label |
| ReplyQueues.HeadImagesInOrder | client/chatwidget.cpp:313-329 | in every reachable state labels waiting = queued - successful, and the j-th image went to the j-th label, shifted by exactly the failures before it |
| UrlDecoding.UrlDecode | server/src/GateWay/LogicSystem.cpp:145-171 | the loop computes the recursive decoder, with its two ways to fail |
| UrlDecoding.DecodeUndoesEncode | server/src/GateWay/LogicSystem.cpp:145-171 | for every byte string and choice of escapes, '%' always escaped, either hex case, decoding appends exactly that string |
| UrlDecoding.FailsIffShortEscape | server/src/GateWay/LogicSystem.cpp:157-166 | with hex escapes the result is false if and only if the scan meets a '%' with fewer than two characters after it |
| UrlDecoding.TruncatedAfterPrefix | server/src/GateWay/LogicSystem.cpp:157-166 | a failed scan stopped at a '%' among the last two characters and has appended the decoding of everything before it |
| UrlDecoding.DecodedWasEncoded | server/src/GateWay/LogicSystem.cpp:134-171 | an input with hex escapes that decodes is an encoding of its result |

## Left out

- ChatSessions.ChatSession.HandlingWrite: completions with an error are taken as error-free ones of any length; the code ignores the error and writes again.
- ChatSessions.ChatSession.HandlingRead: the request handler is an arbitrary answer per request; forwarding after it is in `Routing`, where the answer is computed.
- LoadBalance.LoadBalanceBound: runs have fewer than 2^32 logins, so no counter has wrapped; a client that logs in again with its token is not covered, since the token stays valid.
- ClientMessages.Global.AppendMsg: the counter is unbounded; the source's `unsigned long` would repeat ids after it wraps.
- TcpManagers.TcpManager.OnDataReady: which ids have a registered handler; a frame counts as handled when it is given to `handing`.
- Lock-free access in `handlingWrite`, the raw pointer a pending write holds across compaction or growth, and object lifetimes.
- Interleaving inside one handler, such as between the two `hset` commands of a login.
- Replies to the requesting client, and handlers that do not set `forwardId_`; SQL results are arbitrary.
- JSON values other than strings and the accept flag in requests, and exceptions of the JSON library.
- Setters of the cropper other than `setCropper` and `setCropperMinimumSize`, which only assign and reset in the same way; 32-bit overflow of coordinates; floating-point rounding of `scaledRate`; painting and cursors.
- Containment of FIXED_RECT and FIXED_ELLIPSE, whose size nothing in the code bounds.
- `CustomerScrollWidget::removeWidget(QWidget*)`, and how a bubble abbreviates its time.
- Whether reconnecting in the pool throws, and threads that never return a connection.
- `urlDecode` on inputs longer than a 32-bit index can count.
- Sockets, gRPC, hiredis, the MySQL driver and Qt networking, which are environment steps, maps and channels here.
- `RedisConnPool`, which repeats the pool without renewal, and `StatusServerClient`, whose lock guards are temporaries so that no pool invariant holds.
