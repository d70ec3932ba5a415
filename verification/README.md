# libusbnet in Dafny

libusbnet runs libusb calls on another machine. A client library with the libusb interface packs each call
into a packet, sends it over TCP and waits for the reply; a server unpacks it, calls the real libusb and
answers. Packets are nested type-length-value items, written and read by two separate implementations, one in
C and one in C++. This project models both ends, the wire between them and the interleavings of many client
threads, and proves that they fit together.

`dafny verify dfyconfig.toml` checks everything.

## How it is organised

| module | models |
|---|---|
| `Bytes`, `Protobase`, `Opcodes` | octets, packed lengths, integer coding, opcodes |
| `Tlv` | trees of items, their encoding, and the flat token stream a reader without a stack sees |
| `Cursor` | the C iterator as functions; preorder traversal without a stack |
| `Framing` | sockets as queues of chunks, `recv_full`, packets on a stream |
| `CProtocol`, `PacketRuns` | the client's growing packet and its iterator, as classes; whole runs of the packet buffer |
| `CppProtocol` | `Struct` blocks over one shared string, the C++ iterator, `Packet`, as classes |
| `Builder` | whole runs of `writeBlock`, adds and `finalize`, on values and on the `Struct` objects |
| `DeviceTree`, `Serializer` | the six-level device tree, its images in memory, and the server's loops that send it |
| `TreeParser`, `TreeReader`, `Discovery` | what the client reads from any payload as functions, the parser itself, and its reconciliation of the linked lists in place |
| `Calls`, `Stubs` | requests, replies and the call stubs |
| `Usb`, `UsbService`, `HandleTable` | libusb as an abstract machine, the server's handlers, the list of open handles |
| `PollLoop` | rounds of the event loop over the client vector, which is erased from while it is walked |
| `Remote` | one call, and runs of calls, against a simple local machine |
| `Rpc` | any number of connections and threads, one server: every interleaving |
| `EndToEnd` | one call, and one device tree, through all the imperative parts |

The main results, from the bottom up:

- `Builder.BuildsEncoding` and `Builder.Build`: blocks written into one string with stale cursors and lengths
  inserted in the middle still produce the recursive encoding, however adds and sub-blocks alternate.
- `Cursor.WalkIsPreorder`: the C iterator, which keeps no stack, visits every item of any encoded forest once,
  in preorder, and stops exactly at the end.
- `CProtocol.ReceiveAll`, `CppProtocol.ReceiveAll`, `Framing.StreamRoundTrip`: lists of packets survive any
  cutting of the stream and nothing behind them is taken.
- `TreeParser.Busses`, `TreeParser.ReplyReadsBack`, `Discovery.FindDevices`: on every payload, a device tree or
  not, the client's nested loops end at the end of the packet and rewrite the virtual bus list in place to what
  the functions of `TreeParser` read; on the server's reply they read the server's tree.
- `EndToEnd.TransferTree`, `Discovery.ListStaysValid`: the server's device tree is rebuilt by the client over
  any earlier list, with the exact condition under which the result is a valid list again.
- `Remote.RemoteRefinesLocal`: runs of remote calls return what a simple machine over a table of handles
  returns, exactly when every result fits its reply.
- `Rpc.CallsAreAtomic`, `Rpc.ServedOnce`, `Rpc.OneReplyOwed`: in every interleaving of every number of threads
  and connections, down to single appends to the shared packet, every request sent is served once and in order,
  each finished call took effect between its request and its reply, and it returned what the simple machine
  returns at that point exactly when its result fits its reply.
- `HandleTable.HandlesConserved`, `HandleTable.EveryHandleClosedOnce`: the list of open handles is exactly what
  was opened and not yet closed, in open order, and after the destructor libusb's close has been called exactly
  once on every handle that libusb ever opened, even when descriptors are used again.
- `PollLoop.ServerSocket.Pass`: a walk that erases and restarts still reads every client with data, also one that
  hung up, and keeps exactly those that should stay.

What libusb is assumed to do is `Usb.Contract`; `Rpc.AssumptionsCanBeMet` shows that it can be met.

Fields named as history (`log`, `asked`, `replied`, `since`, `at` in `Rpc`; `acquired`, `closed` in
`HandleTable`; `log` in `PollLoop`; `serial` in a handle) exist to state the properties; the program does not
keep them. Lemmas with parameters switch Dafny's automatic induction off: their proofs are the ones written.

Where code and documentation of the repository disagree the code is followed: a 16-bit signed value loses its
sign in the C reader, the length 128 is sent as one octet, a release of an open handle reports 0 whatever
libusb returned, a driver name that fills its buffer loses its last octet, and a bus that goes from some devices
to none keeps its old device pointer. Each of these has
a lemma with the exact condition and one with a concrete case.

## Model

| member | source | states |
|---|---|---|
| Protobase.LengthCodec | src/proto/protobase.c:87-132 | every 32-bit length comes back from its packed form with the exact number of octets (1, 3 or 5, with 0xFFFF in the long form), whatever bytes follow |
| Protobase.UnpackLengthField | src/proto/protobase.c:110-132 | any understood length field, also one longer than necessary, is read back with its own size |
| Protobase.LengthsArePrefixFree | src/proto/protobase.c:87-108 | no packed length is the beginning of another |
| Protobase.PackedLengthIsDefinite | src/proto/protobase.c:87-108 | packed lengths are definite-form lengths of section 8.1.3 of ITU-T X.690 for every value but 128, and only for those |
| Protobase.Length128 | src/proto/protobase.c:87-108 | the concrete exception |
| Protobase.UnsignedRoundTrip | src/proto/protobase.c:134-145 | C and C++ reader agree on unsigned values of every width and return exactly those that fit the width |
| Protobase.SignedRoundTripCpp | src/proto/protocol.hpp:213-243 | the C++ reader returns exactly the signed values that fit the width, with their sign |
| Protobase.SignedRoundTripC | src/proto/protobase.c:147-158 | so does the C reader for 8 and 32 bits; of 16-bit values it returns exactly the non-negative ones |
| Protobase.NegativeShort | src/proto/protobase.c:147-158 | the concrete difference between the readers |
| Tlv.EncodingIsFlat | src/proto/protocol.cpp:44-121 | an encoded forest is the concatenation of its headers and leaf values in preorder, every one well formed |
| Tlv.Items16Ok | src/proto/protocol.c:165-186 | every item the C side appends has an understood length field that matches its value |
| Cursor.StepsAdvance | src/proto/protocol.c:224-277 | on any bytes at all, no step goes back and each step before the end moves the iterator forward |
| Cursor.BeginAt | src/proto/protocol.c:209-222 | `pkt_begin` loads the first item |
| Cursor.NextAt | src/proto/protocol.c:229-259 | `iter_next` leaves a leaf, whose value is read unchanged, for the next item in preorder |
| Cursor.EnterAt | src/proto/protocol.c:268-277 | `iter_enter` goes on with the first item inside a block, or behind it when the block is empty |
| Cursor.SkipAt | src/proto/protocol.c:229-259 | `iter_next` on a block skips exactly its subtree, and its value is the encoding of what is inside |
| Cursor.WalkIsPreorder | src/proto/protocol.c:209-277 | entering blocks and stepping over leaves visits every item once in preorder and ends with `cur == end` |
| Cursor.CReadsCpp | src/proto/protocol.c:209-259 | items without blocks, written by the C++ side, are read by the C side one by one with the same types and values |
| Framing.Socket.Recv | src/proto/protobase.c:33-50 | one `recv`: any non-empty part of what has arrived, 0 only at the end of the stream |
| Framing.RecvFull | src/proto/protobase.c:33-50 | however the stream is cut, the next `pending` bytes are stored at their place and nothing behind them is taken; 0 when the stream ends first |
| Framing.RecvHeader | src/proto/protobase.c:52-68 | reads exactly the opcode, the first length octet and as many octets as it announces, for every header that fits the buffer |
| Framing.HeaderDecides | src/proto/protobase.c:52-68 | a packet has arrived exactly when its header and the announced octets have |
| Framing.ParseFrameAt | src/proto/protocol.c:103-163 | a packet sent is the packet parsed, with all later bytes left |
| Framing.StreamRoundTrip | src/proto/protocol.c:103-163 | any list of packets sent comes back from the bytes of the stream, with later bytes left |
| Framing.StreamFront | src/proto/protocol.c:103-163 | the next packet of a stream of packets is the first not yet taken, and its announced size is its own |
| Framing.StreamInjective | src/proto/protocol.c:144-163 | different lists of packets never give the same bytes |
| CProtocol.SizesDoNotWrap | src/proto/protocol.c:67-78 | the 32-bit buffer size and the 16-bit item size are right exactly below their bounds |
| CProtocol.SizesWrap | src/proto/protocol.c:165-169 | the first sizes beyond the bounds, which become 0 |
| CProtocol.Packet.constructor | src/proto/protocol.c:37-53 | a new packet is empty and owns a buffer of the size asked for |
| CProtocol.Packet.Init | src/proto/protocol.c:60-65 | the payload is emptied, the buffer kept |
| CProtocol.Packet.Reserve | src/proto/protocol.c:67-78 | the buffer grows to at least the size asked for and never shrinks; the payload is unchanged |
| CProtocol.Packet.Append | src/proto/protocol.c:165-186 | the payload grows by exactly one item, in the 0x82 form with its octets; size never exceeds the buffer |
| CProtocol.Packet.AddNumeric | src/proto/protocol.c:188-207 | one integer item in network byte order for widths 1, 2 and 4; nothing for any other width |
| CProtocol.Packet.Send | src/proto/protocol.c:144-163 | the three sends put one whole packet on the stream |
| CProtocol.Packet.Recv | src/proto/protocol.c:103-142 | opcode and payload of the next packet, however the stream is cut; later bytes stay; 0 when none is complete |
| CProtocol.Packet.RecvPayload | src/proto/protocol.c:103-142 | the payload replaces the header in the buffer, or the packet is left empty |
| CProtocol.ReceiveAll | src/proto/protocol.c:103-142 | as many `pkt_recv` as packets were sent return exactly these packets, however the stream is cut, and leave later bytes unread |
| CProtocol.WriteItem | src/proto/protocol.c:165-186 | type, length form, length and value in place behind the earlier payload |
| PacketRuns.AfterPush | src/proto/protocol.c:165-186 | what each operation adds to the items appended since the last `pkt_init` |
| PacketRuns.Perform | src/proto/protocol.c:60-186 | over any run of init, reserve and append the size stays within the buffer and the payload is exactly the items appended since the last init |
| CProtocol.Iterator.Begin | src/proto/protocol.c:209-222 | the iterator over the packet's payload, at its first item |
| CProtocol.Iterator.Next | src/proto/protocol.c:229-259 | refines the functional step of `Cursor` |
| CProtocol.Iterator.Enter | src/proto/protocol.c:268-277 | refines the functional step of `Cursor` |
| CProtocol.Iterator.GetInt | src/proto/protocol.h:200-211 | the signed value of the item being left, with that item's length |
| CProtocol.Iterator.GetUInt | src/proto/protocol.h:200-214 | the unsigned value of the item being left, with that item's length |
| CppProtocol.Struct.constructor | src/proto/protocol.cpp:34-42 | a block starts at a position or, for a negative one, at the end of the shared string |
| CppProtocol.Struct.Push | src/proto/protocol.hpp:90-94 | one octet at the block's cursor; everything behind it moves; cursor and size count it |
| CppProtocol.Struct.PushPacked | src/proto/protocol.cpp:44-52 | a packed length at the cursor |
| CppProtocol.Struct.Append | src/proto/protocol.cpp:54-64 | nothing for NULL, a C string for size 0, else the octets, inserted at the cursor |
| CppProtocol.Struct.AddNumeric | src/proto/protocol.cpp:66-87 | three inserts add up to one integer item at the old cursor; nothing for an unknown width |
| CppProtocol.Struct.AddData | src/proto/protocol.cpp:89-95 | three inserts add up to one item at the old cursor |
| CppProtocol.Struct.AddString | src/proto/protocol.cpp:98-108 | the string with its NUL as one item; nothing for NULL |
| CppProtocol.Struct.Finalize | src/proto/protocol.cpp:110-121 | the length of everything behind the type octet is inserted there; no cursor moves |
| CppProtocol.Struct.WriteBlock | src/proto/protocol.hpp:106-111 | a new block starts at the end of the string that all blocks share |
| CppProtocol.InsertTwice | src/proto/protocol.cpp:54-64 | inserting at a cursor that moves along is inserting the concatenation |
| CppProtocol.WholeString | src/proto/protocol.cpp:54-64 | with size 0 the octets in front of the first NUL are inserted, and only these |
| CppProtocol.AddDataExact | src/proto/protocol.cpp:54-95 | an item holds exactly the data given if and only if size is positive, the pointer NULL, or the memory an empty C string |
| CppProtocol.StrayOctet | src/proto/protocol.cpp:54-95 | the concrete octet left behind an empty item |
| CppProtocol.AdvanceTo | src/proto/protocol.cpp:123-146 | `next` loads the next flat item and positions behind it |
| CppProtocol.TakeItem | src/proto/protocol.hpp:256-260 | the getter returns the current item's value and leaves the reader at the following item |
| CppProtocol.OpenAhead | src/proto/protocol.cpp:148-161 | the constructor skips the packet's header, in any length form, and loads the first item |
| CppProtocol.CppReadsC | src/proto/protocol.cpp:123-161 | any items the C side appends, or none, are read by the C++ side with the same types and values |
| CppProtocol.Iterator.Next | src/proto/protocol.cpp:123-146 | refines the functional step; at the end every field keeps its value |
| CppProtocol.Iterator.GetInt | src/proto/protocol.hpp:212-219 | the sign-extended value of the current item; the reader moves on |
| CppProtocol.Iterator.GetUInt | src/proto/protocol.hpp:201-208 | the unsigned value of the current item; the reader moves on |
| CppProtocol.Packet.constructor | src/proto/protocol.hpp:278-283 | a packet is the block at position 0 of its own string, holding its opcode |
| CppProtocol.Packet.Send | src/proto/protocol.cpp:196-199 | finalizing and sending puts one whole packet on the stream |
| CppProtocol.Packet.Recv | src/proto/protocol.cpp:163-190 | exactly the octets of the next packet, header included, however the stream is cut; -1 when it does not arrive |
| CppProtocol.ReceiveAll | src/proto/protocol.cpp:163-190 | as many `recv` as packets were sent return exactly the octets of these packets, however the stream is cut, and leave later bytes unread |
| Builder.StepRepresents | src/proto/protocol.cpp:44-121 | every writeBlock, add and finalize keeps the layout of all open blocks, stale cursors included |
| Builder.AddToLayout | src/proto/protocol.cpp:54-64 | an item lands behind the block's earlier items and in front of its finished sub-blocks |
| Builder.FinalizeTop | src/proto/protocol.cpp:110-121 | inserting the length turns the innermost block into a complete encoding |
| Builder.RunRepresents | src/proto/protocol.cpp:44-121 | every properly nested run stays within its string and keeps the layout |
| Builder.BuildsEncoding | src/proto/protocol.cpp:44-121 | a nested run ends in the recursive encoding: each block's items in call order, then its blocks in call order, all lengths right |
| Builder.OpenBlock | src/proto/protocol.hpp:106-111 | `writeBlock` on the objects is the model's step |
| Builder.AddItem | src/proto/protocol.cpp:89-95 | an add on the innermost object is the model's step, and leaves all outer cursors as they were |
| Builder.CloseBlock | src/proto/protocol.cpp:110-121 | `finalize` on the innermost object is the model's step |
| Builder.Build | src/proto/protocol.cpp:44-121 | the calls made on real `Struct` objects produce the encoding of the tree they describe |
| DeviceTree.SwapCrosses | src/server/usbservice.cpp:131-139 | a 16-bit value swapped, copied as memory and swapped back is itself for every pair of byte orders |
| DeviceTree.DescriptorCrosses | src/usbnet.c:246-253 | a device descriptor crosses between machines of any byte orders unchanged |
| DeviceTree.ConfigCrosses | src/usbnet.c:268-275 | a configuration crosses when structure sizes differ, losing only extras and pointers |
| DeviceTree.AltsettingCrosses | src/usbnet.c:304-312 | an interface descriptor crosses when structure sizes differ |
| DeviceTree.EndpointCrosses | src/usbnet.c:324-332 | an endpoint crosses when structure sizes and byte orders differ |
| DeviceTree.ReplyIsFlat | src/server/usbservice.cpp:112-193 | the reply is a well-typed forest, so the client's flat walk sees all of it in preorder |
| TreeParser.Configs | src/usbnet.c:255-357 | on any payload the type-and-count guarded loop ends with a loaded iterator that did not go back |
| TreeParser.Devices | src/usbnet.c:224-359 | so does the type-guarded device loop, whatever it reads |
| TreeParser.Busses | src/usbnet.c:194-375 | on any payload the outer loop, which steps over items that are no buses, ends with `cur` at or behind the end |
| TreeParser.ExtrasReadBack | src/usbnet.c:339-354 | on a server reply the extras come back exactly, and an item is taken for them only when there are any |
| TreeParser.AltsettingReadsBack | src/usbnet.c:304-355 | an altsetting with its endpoints and extras comes back and nothing behind it is taken |
| TreeParser.InterfacesReadBack | src/usbnet.c:288-356 | every interface comes back with its altsettings |
| TreeParser.ConfigsReadBack | src/usbnet.c:255-357 | every configuration comes back, although only item types and counts separate them from what follows |
| TreeParser.DevicesReadBack | src/usbnet.c:224-359 | every device of a bus comes back and the next bus is left alone |
| TreeParser.BussesReadBack | src/usbnet.c:194-375 | every bus comes back in order |
| TreeParser.OthersAreSkipped | src/usbnet.c:194-375 | items that are no buses, wherever they stand between the buses, change nothing in what is read |
| TreeParser.ReplyReadsBack | src/usbnet.c:183-375 | parsing the server's reply gives the server's tree, for all byte orders and structure sizes, without config extras, endpoint extras and children |
| DeviceTree.Survives | src/usbnet.c:183-375 | what of a tree comes back, level by level and without loss of an entry: a device without its children, a configuration without its extras, an altsetting with them, an endpoint without |
| Serializer.AddEndpoints | src/server/usbservice.cpp:163-172 | the loop appends exactly the endpoints' items, in order |
| Serializer.AddExtras | src/server/usbservice.cpp:174-180 | the length of the interface extras and, only if positive, the extras |
| Serializer.AddAltsettings | src/server/usbservice.cpp:156-181 | each altsetting is followed by its endpoints and its extras |
| Serializer.AddInterfaces | src/server/usbservice.cpp:151-182 | each interface is its altsetting count and its altsettings |
| Serializer.AddConfigs | src/server/usbservice.cpp:141-183 | each configuration is followed by its interfaces |
| Serializer.AddDevice | src/server/usbservice.cpp:127-185 | a device becomes one complete block at the end of the bus under construction |
| Serializer.AddBus | src/server/usbservice.cpp:120-189 | a bus becomes one complete block holding its devices' blocks |
| Serializer.FindDevices | src/server/usbservice.cpp:105-194 | what is sent is exactly the encoding of the server's tree, as one packet |
| TreeReader.ReadEndpoints | src/usbnet.c:322-337 | on any payload the loop reads what the function of `TreeParser` says and leaves the iterator there |
| TreeReader.ReadExtras | src/usbnet.c:339-354 | the same, with the second item taken only for a positive length |
| TreeReader.ReadAltsetting | src/usbnet.c:304-355 | the same for one altsetting |
| TreeReader.ReadInterfaces | src/usbnet.c:288-356 | the same for the interfaces of a configuration |
| TreeReader.ReadConfigs | src/usbnet.c:255-357 | the same for the loop guarded by item type and count |
| TreeReader.ReadHeader | src/usbnet.c:240-253 | the same for name, number and descriptor of a device |
| Discovery.NextDevice | src/usbnet.c:227-238 | the node already linked is reused; past the end a new one is linked both ways and, if it is the first, hung into the bus |
| Discovery.DropDevices | src/usbnet.c:362-368 | nodes left over are unlinked and the list ends behind the last one used |
| Discovery.ReadDevices | src/usbnet.c:220-368 | on any payload the devices read end up in order in a doubly linked list that begins with the old nodes; fresh nodes only past the old end |
| Discovery.ReadBus | src/usbnet.c:199-368 | a bus node takes the name, location and devices read from its block |
| Discovery.NextBus | src/usbnet.c:201-212 | the bus node already linked is reused; past the end a new one is linked both ways |
| Discovery.ReadKthBus | src/usbnet.c:199-368 | reading one bus leaves every other bus and its devices as they were |
| Discovery.DropBusses | src/usbnet.c:377-382 | surplus buses are unlinked |
| Discovery.ReadBusses | src/usbnet.c:194-375 | on any payload the loop, which steps over items that are no buses, ends at the packet's end with one bus node per bus read |
| Discovery.Reconcile | src/usbnet.c:189-391 | from any earlier list and any payload: the buses read in order, old nodes first, each with exactly its devices |
| Discovery.PointerIsRight | src/usbnet.c:222-238 | a bus leads to exactly its devices if and only if it had none before or has received some |
| EndToEnd.StaleDevice | src/usbnet.c:222-238 | two transfers, of a bus with one device and then without, leave a bus that points at the device that has gone |
| Discovery.ListStaysValid | src/usbnet.c:189-391 | the result is a valid list for the next call if and only if no bus that had devices received none |
| Discovery.FindDevices | src/usbnet.c:170-398 | request, the next packet of the stream whatever it holds, and reconciliation with what it says; without a reply the list stays; later bytes stay unread |
| Calls.DecodeRequest | src/server/usbservice.cpp:48-83 | for every call within the payload limits, driver names included, the server decodes exactly the call and arguments the stub was given |
| Calls.OpcodeDecides | src/server/usbservice.cpp:48-83 | whatever else a packet holds, its opcode alone decides which call is made, and exactly the opcodes of no call are refused |
| Calls.Sent | src/usbnet.c:720-896 | only the contents of a buffer to be filled are not sent; writes, control messages and all other calls are sent as they are |
| Calls.TwoItems | src/usbnet.c:413-447 | a reply of a code and an item is read back whatever stray octets follow |
| Calls.NoUsableReply | src/usbnet.c:123-924 | without a reply, with an empty one or one of another opcode: -1 with buffer, name and setting as they were, NULL for an open, and 0 changes for the two searches |
| Stubs.SendRequest | src/usbnet.c:413-924 | every stub puts one packet with its opcode and its arguments in order on the stream |
| Stubs.ReadAnswer | src/usbnet.c:413-924 | every stub takes exactly one packet, checks the opcode, and returns code, handle, setting, data or name from it; without a usable reply it returns its error value, spelled out call by call |
| Stubs.ReadResult | src/usbnet.c:681-717 | code, handle, setting or data are taken from the items of the reply in order |
| Usb.Select | src/server/usbservice.cpp:202-220 | what is selected has the location and the number asked for, and nothing is selected if and only if the first bus at the location, if any, has no such device |
| Usb.SelectReachesShown | src/server/usbservice.cpp:202-220 | the first-match search finds a given device if and only if no earlier bus has its location and no earlier device on the bus its number |
| Usb.SecondBusHidden | src/server/usbservice.cpp:202-220 | of two buses at one location only the first is searched |
| Usb.ContractCanBeMet | src/server/usbservice.cpp:85-103 | what is assumed of libusb is consistent, with a device that can be found and opened |
| UsbService.UsbService.Find | src/server/usbservice.cpp:251-262 | the search finds the first handle with the descriptor, or none |
| UsbService.UsbService.OnDevice | src/server/usbservice.cpp:246-701 | list, libusb's world and reply after any handler that looks up a handle; an unknown descriptor or an empty transfer changes nothing |
| UsbService.UsbService.SelectDevice | src/server/usbservice.cpp:202-220 | the two nested loops are the first-match search |
| UsbService.UsbService.UsbOpen | src/server/usbservice.cpp:196-244 | an opened handle is appended to the list and its descriptor reported; else -1 and the same list |
| UsbService.UsbService.AddDriverName | src/server/usbservice.cpp:476-483 | the driver's name, cut to the buffer with its last octet set to NUL, as one string item |
| UsbService.UsbService.Handle | src/server/usbservice.cpp:48-83 | the packet decoded by its opcode is served and answered; an unknown opcode changes nothing |
| UsbService.UsbService.Read | src/server/serversocket.cpp:118-131 | one packet is taken from the stream, however cut, and handled; false only when none arrives |
| UsbService.UsbService.Destroy | src/server/usbservice.cpp:37-46 | libusb closes every open handle, front to back, and the list is emptied |
| HandleTable.ListAfter | src/server/usbservice.cpp:196-269 | a call pushes one handle at the end, removes the one it closes, or leaves the list alone |
| HandleTable.RemainingWithout | src/server/usbservice.cpp:246-269 | removing one open handle leaves the others in the order in which they were opened |
| HandleTable.StepConserves | src/server/usbservice.cpp:196-269 | each call keeps the list equal to the handles at the indices not closed, closes no index twice, and what it counts as closed is the handle on which libusb close was called |
| HandleTable.HandlesConserved | src/server/usbservice.cpp:196-269 | over every run the list is exactly the handles opened and not yet closed, in open order, told apart by index even when descriptors are used again |
| HandleTable.CloseUnknown | src/server/usbservice.cpp:246-269 | closing a descriptor that is not open changes nothing and reports -1 |
| HandleTable.RecordingIsTransparent | src/server/usbservice.cpp:48-83 | a libusb that also records what it is asked changes no reply, list or world |
| HandleTable.RunIsTransparent | src/server/usbservice.cpp:48-83 | nor over whole runs |
| HandleTable.DestructorIsTransparent | src/server/usbservice.cpp:37-46 | nor in the destructor |
| HandleTable.ServeRecords | src/server/usbservice.cpp:196-269 | in one call libusb's close is called at most once, on the handle found and by a close only, and what its open returns is what is added to the list |
| HandleTable.DestructorCloses | src/server/usbservice.cpp:37-46 | the destructor calls libusb's close exactly once on each open handle, front to back, and opens nothing |
| HandleTable.IndicesClosedOnce | src/server/usbservice.cpp:37-46 | after any run and the destructor every index of an opened handle is counted as closed exactly once |
| HandleTable.EveryHandleClosedOnce | src/server/usbservice.cpp:37-46 | by libusb's own record, after any run and the destructor: the handles it opened are those counted as opened, and its close was called exactly once on each, in the order in which they are counted as closed |
| HandleTable.DestructorFrees | src/server/usbservice.cpp:37-46 | the destructor frees the descriptors of the open handles and no others |
| PollLoop.ServerSocket.Join | src/server/serversocket.cpp:61-72 | accepted sockets join behind the clients already there |
| PollLoop.ServerSocket.Pass | src/server/serversocket.cpp:76-111 | the pass ends despite restarts; exactly the entries that neither hung up nor failed remain, in order, listener first; every client that had data was read, also one that hung up, and nobody without data was; a connection is accepted at most once |
| PollLoop.ServerSocket.Turn | src/server/serversocket.cpp:58-112 | join, poll and pass read every client with data, newly joined ones included, and leave the listener in front and descriptors distinct, so the next round can follow |
| PollLoop.Run | src/server/serversocket.cpp:58-112 | so do any number of rounds, and every entry is the listener or was accepted |
| PollLoop.SurvivorsErase | src/server/serversocket.cpp:101-107 | erasing a dead entry leaves the same survivors |
| Remote.AnswerIsReturned | src/usbnet.c:449-924 | the stub returns libusb's result and data, stray octets or not, if and only if a close result fits 8 bits, a release reports 0 and a driver name leaves room for a NUL |
| Remote.TransferDelivers | src/usbnet.c:681-849 | after a transfer on an open handle the caller's buffer begins with the octets that libusb transferred and is otherwise as it was; untouched when the transfer failed |
| Remote.CloseResultLost | src/server/usbservice.cpp:265-268 | a close result of 200 comes back as -56 |
| Remote.ReleaseResultLost | src/server/usbservice.cpp:424-448 | a release of an open handle comes back as 0 whatever libusb returned |
| Remote.TerminatedName | src/server/usbservice.cpp:450-484 | the name sent is the C string in the buffer if and only if the buffer holds a NUL |
| Remote.NameCut | src/usbnet.c:864-896 | a name that fills its buffer comes back without its last letter |
| Remote.AnswerIsNotOpen | src/usbnet.c:449-924 | a call on a descriptor that is not open returns -1, leaves buffer and setting alone, and gives an empty driver name |
| Remote.RefusedCall | src/server/usbservice.cpp:246-701 | a call on a descriptor that is not open, and a bulk or interrupt transfer of size 0, change nothing on the server and return -1 with buffer and setting as they were |
| Remote.OpenAbsent | src/server/usbservice.cpp:196-244 | a device that the first bus at the location does not have is not opened, nor is any other: the client gets NULL and the server is as it was |
| EndToEnd.OpenReachesNode | src/usbnet.c:413-447 | opening a device node of the reconciled list, with the location of the bus it points to, makes the server select the device it was filled from if and only if locations and numbers in front of it differ |
| Remote.HandleStep | src/server/usbservice.cpp:246-701 | one handler refines one step of the table of handles |
| Remote.RemoteStep | src/server/usbservice.cpp:48-701 | stub, wire and handler refine one local call; all but UsbInit are answered |
| Remote.RemoteRefinesLocal | src/server/usbservice.cpp:196-701 | whole runs return the local results if and only if every result fits its reply; world and handles agree in any case |
| Remote.ResultAt | src/server/usbservice.cpp:196-701 | result by result: each is the local one if and only if it fits its reply where the run stands |
| Rpc.StepKeeps | src/proto/protocol.c:84-101 | every claim, init, append, send, receive, read, release and server step keeps the mutex, the shared packet, the streams and the results consistent |
| Rpc.RunKeeps | src/proto/protocol.c:84-101 | so does every interleaving |
| Rpc.BuiltAppends | src/proto/protocol.c:165-186 | an append by the holder leaves the shared packet with one more item of its own request |
| Rpc.ServeConn | src/server/usbservice.cpp:48-83 | a packet handled by the server is the oldest request in flight; it is logged and, unless UsbInit, answered with the only reply |
| Rpc.OneReplyOwed | src/usbnet.c:123-164 | at most one reply is owed on a connection, exactly while the lock holder waits, and it carries the holder's opcode, even with UsbInit requests queued in front |
| Rpc.NeverStuck | src/proto/protocol.c:84-101 | in every reachable state a free packet can be claimed by any thread, and the holder can go on, or the server can serve its connection, or its reply has arrived |
| Rpc.ServedOnce | src/proto/protocol.c:84-101 | the calls served for a connection, then those in flight, are exactly the calls sent on it, in order |
| Rpc.CallsAreAtomic | src/proto/protocol.c:84-101 | the server is where the logged calls made one after the other leave it; each finished call is the last one served on its connection, between its request and its reply, and its result is the simple machine's if and only if it fits its reply |
| Rpc.AssumptionsCanBeMet | src/server/usbservice.cpp:48-83 | what the theorems on interleavings assume can be met |
| EndToEnd.Answering | src/server/serversocket.cpp:118-131 | the server's object code, from the bytes of a request to the bytes of its reply |
| EndToEnd.Reading | src/usbnet.c:449-474 | the client's object code, from the bytes of a reply to the result |
| EndToEnd.RemoteCall | src/usbnet.c:413-924 | one call through all classes and both streams, cut in any way, refines the local call, with the exact condition on its result |
| EndToEnd.TransferTree | src/usbnet.c:183-391 | the server's tree, sent and cut in any way, is rebuilt over any earlier list with only config extras, endpoint extras and children missing; the list is valid again if and only if no bus lost all its devices |

## Left out

- Sockets, `poll`, DNS, signals, the SSH tunnel and process start: a socket is a queue of non-empty chunks, `send` an append that always succeeds.
- Shared-memory hand-off of the descriptor (src/proto/protobase.c:165-248) and several processes on one socket: not covered by the mutex.
- libusb itself: any machine that meets `Usb.Contract`. usb.h is not part of this model; the device descriptor is 18 octets, the other descriptors 9 octets and any tail.
- Reads past a buffer or an item: a length field that is cut short or of another form counts as unrecognised, an integer of 0 or 3 octets reads as 0 in the C++ getters, a C string ends with its item, and octets that a short descriptor item does not bring are 0, where the program keeps what the memory held. Descriptor items and names longer than their structures, which the client copies unclipped, are cut in the model.
- Memory: allocation succeeds, nothing is freed, and configurations, interfaces, altsettings and endpoints are values in a device node instead of arrays on the heap. The `prev` link of the first bus in a list is not described; the code sets it to a local variable.
- `usb_get_string`, `usb_get_descriptor`, `addInt16`, `addBool`, `Packet::clear`, packet dumps and logging: they would only add easy members.
- Calls.DecodeRequest: bulk and interrupt payloads are limited to 65531 octets, and a buffer for a driver's name has room for a NUL (src/server/usbservice.cpp:476 throws otherwise).
- Builder.Build: blocks without a type octet, which `writeBlock` allows, are not built, since `finalize` would put their length behind a data octet.
- CProtocol.Packet.Append: items above 65531 octets and packets within 32 octets of 4 GiB are excluded, where the sizes wrap (`CProtocol.SizesDoNotWrap`).
- CProtocol.Iterator.GetInt: the macro leaves open whether the length is read before or after the step to the next item; the length is that of the item returned.
- Usb.SelectReachesShown: a device number is compared as one octet, which is what the stub sends.
- UsbService.UsbService.OnDevice: the handlers' common part is one method; reads hand libusb a buffer of zeros, and a build without driver detaching is not distinguished.
- PollLoop.ServerSocket.Pass: the listener does not hang up and descriptors are distinct, which `PollLoop.Run` shows to last; how often a client that stays ready is read again after a restart is not claimed.
- Rpc.CallsAreAtomic: sends and receives of whole packets are single steps; that the bytes may arrive in pieces is the business of `CProtocol.Packet.Recv` and `CppProtocol.Packet.Recv`.
- Framing.RecvHeader: headers that announce more than four length octets are excluded; the program would write past its buffer.
