# A verified model of the Modbus TCP to RTU gateway

The gateway takes Modbus TCP requests from any number of masters, puts each on a shared RTU bus with
a CRC, and returns what the bus answers under the transaction id of the request. This project models
the whole path of a request and the concurrent server around it, and proves what the gateway is for:
every master reads the answers to its own requests, in order, with the register values of the last
write, whatever the other masters, the network and the fault injector do.

`dafny verify dfyconfig.toml` checks everything.

## How the model is built

Bytes and words are ranges of the integers; shifts, masks, exclusive-or and inclusive-or are defined
bit by bit in `Bits`. Joining two bytes to a word and setting bit 7 are written as sums, and proved to
be the shifts and ors of the source. Where the C and C++ sources truncate to 8, 16, 32 or 64 bits, the model does so
explicitly. Code that changes state in place is imperative here as well: the CRC loops, the slave
(`Slave`), the bus and the injector (`RtuTransport`), the gateway object (`GatewayService`) and the
thread of one connection (`ServeClient`). Each such method is proved against a function of the old
state, and the theorems are about those functions.

| module | models |
|---|---|
| `Bits`, `Options` | machine words, bit operations, an option type |
| `Crc`, `CrcPolynomial` | `mb_crc16`, its algebra, and its definition as a remainder of polynomials |
| `CrcErrors`, `CrcOrder` | which transmission errors the CRC detects, and the period of its shift step |
| `Mbap`, `MbapWire` | the MBAP codec and the batch meaning of a byte stream, and the header in numbers |
| `Station`, `Slave` | `mb_slave_handle` as a function of a slave's state, and as an object |
| `StationContract` | what a slave does with each frame, read off its bytes in literal numbers |
| `StationLemmas`, `StationCounters` | registers, replies and counters of one slave over any run |
| `Bus`, `Dispatch` | one exchange on the bus, the injector, and the scan against direct dispatch |
| `RtuTransport` | `InProcessRtu` and `FaultyRtu` as objects |
| `Gateway`, `GatewayService` | translation and `Gateway::handle`, as functions and as an object |
| `History`, `Registers` | the sequential meaning of a run: whole exchanges, one after the other |
| `Server` | the concurrent server: a transition system with one step per shared access |
| `ServerLocks`, `ServerInvariant`, `ServerClients` | its inductive invariant |
| `ServerStats`, `ServerTheorems`, `ServerProgress` | what holds in every reachable state |
| `ServerEnds` | why connections end, read off the steps of a run |
| `ServerService` | what the server can be brought to do: every sequential run is one of its runs |
| `AnyTransport` | the server over a transport of which nothing is assumed |
| `ServeClient` | `serve_client` as imperative code |

The transition system of `Server` has any number of clients, each with a program counter, a private
buffer and separate steps for receiving a chunk, decoding, taking the injector's lock, drawing a drop,
taking the bus lock, visiting slave i, releasing, drawing a corruption, translating, one partial send
and erasing. The log records one event per exchange, at the moment the outermost lock is given back;
it is a history variable, and so are `input`, `handled`, `responses`, `output` and `bus0`. Chunks of
`recv` are arbitrary non-empty byte strings of at most 1024 bytes; `send` takes any positive number
of bytes or fails; the random draws of the injector are arbitrary. The end of a connection by its
peer, an error of `recv`, and shutdown are one action.

The central chain of results, each using the ones before it:

1. the CRC is a polynomial remainder, two CRC checks agree, and single-bit damage always breaks it;
2. a slave answers only intact frames addressed to it, with intact frames of its own, and its
   registers change only by accepted writes;
3. the scan over the slaves is direct dispatch, so one exchange has a meaning that does not depend on
   the order of the slaves;
4. parsing a stream is incremental, so it does not matter how TCP cuts it;
5. every interleaving keeps the locks, the slaves and every client in agreement with the log
   (`ServerClients.InvKept`), so every run equals the sequential run in log order;
6. hence every response of every run is determined, byte by byte, by the log; with it the routing
   invariant, linearizable registers, fault safety and the conservation of the statistics;
7. a connection ends for its stated cause and for no other, and every sequential run can happen, so
   the server does not keep its promises by doing nothing.

## Where the code and its documentation differ

- The gateway's README (`README.md:113-116`) states the routing invariant for every response. The
  gateway takes the unit id of a response from the reply (`src/gateway.cpp:32`) and never compares
  it with the request. Over the in-process bus, with or without faults, the invariant holds. Over an
  arbitrary transport only the transaction id is right (`AnyTransport.TransactionIdsAreKept`);
  `Gateway.AnyTransportKeepsTransactionId` says exactly when the unit id is, and
  `Gateway.StrayRepliesAreForwarded` gives the replies for which it is not.
- The gateway's README (`README.md:127`) and `src/rtu_transport.hpp:109` call a drop a lost
  response. The code drops before the request reaches the bus (`src/rtu_transport.hpp:125`), so a
  dropped write is not applied, while a write whose reply is corrupted is: `Gateway.LegalExchange`
  for the slaves after one exchange, `Registers.RegistersHoldLastWrites` for the registers after any
  number of them.
- The gateway's README (`README.md:137-138`) promises exception 0x0A for a malformed request.
  `decode` never yields an empty PDU, so the branch of `src/gateway.cpp:43-47` is unreachable from
  the server: a malformed request closes its connection. `GatewayService.Gateway.Handle` models the
  branch and gives 0x0A exactly for an empty PDU; `ServerTheorems.PathUnavailableIsNeverSent` says
  that no master ever gets it, `ServerTheorems.MalformedCloses` what happens instead, and
  `ServerTheorems.MalformedRun` the runs in which it does.
- `test/test_gateway.cpp:369-373` equates gateway exceptions with injected faults. Broadcasts,
  absent units and PDUs of the wrong length time out without any fault:
  `Registers.BroadcastTimesOut` is such an exchange. The equation holds exactly when every exchange
  was dropped or asked what the bus answers (`Registers.ExceptionsEqualFaultsIff` for the exchanges,
  `ServerStats.ExceptionsAreInjectedFaults` for the counters), and `Registers.AnsweredIff` says what
  the bus answers.
- `rtu_to_tcp` truncates the length it hands to the CRC to 16 bits (`src/gateway.cpp:26`), so a
  reply of 65536 bytes or more is checked in part. `Gateway.TcpRoundTrip` says exactly when such a
  frame is reproduced by translating it back; no frame of the in-process bus is that long.
- `src/rtu_transport.hpp:62-63` seeds register i of unit u with `(u << 8) | i`, which names the unit
  and the register exactly for i below 256 (`Bus.SeedNamesUnitAndRegister`).

## Model

| member | source | states |
|---|---|---|
| `Bits.WordIsOr` | rtu-core/modbus_slave.c:6-9 | a big-endian word is its high byte shifted by 8, or-ed with its low byte |
| `Bits.WithHighBitIsOr` | rtu-core/modbus_slave.c:30-30 | setting bit 7 of a function code is or-ing 0x80 |
| `Crc.ComputeCrc16` | rtu-core/modbus_crc.c:3-20 | the two nested loops return the CRC of exactly the first `len` bytes |
| `Crc.ShiftLinear` | rtu-core/modbus_crc.c:12-16 | one turn of the inner loop is linear over exclusive-or |
| `Crc.ShiftNKeepsNonZero` | rtu-core/modbus_crc.c:11-17 | no number of turns takes a non-zero register to zero |
| `Crc.FeedIsFeedBits` | rtu-core/modbus_crc.c:9-18 | the byte loop is a machine that takes the bits of the line one at a time |
| `Crc.FeedBitsLinear` | rtu-core/modbus_crc.c:9-18 | the register is linear in start value and message together |
| `Crc.ResidueIsZeroIffSealed` | src/gateway.cpp:25-27 | the CRC over a whole frame is zero iff its last two bytes are, low byte first, the CRC of the rest: the gateway's test and the slaves' test agree |
| `Crc.SealHasZeroResidue` | rtu-core/modbus_slave.c:17-24 | a sealed body has zero residue |
| `Crc.ZeroResidueIsSealed` | src/gateway.cpp:25-27 | every frame with zero residue is the sealing of its body |
| `CrcPolynomial.DivisionIdentity` | rtu-core/modbus_crc.c:5-18 | message times x^16 plus the initial value equals quotient times generator plus register, coefficient by coefficient |
| `CrcPolynomial.RemainderUnique` | rtu-core/modbus_crc.h:6-7 | a message has at most one remainder of degree below 16 |
| `CrcPolynomial.CrcIsRemainder` | rtu-core/modbus_crc.c:3-20 | for every byte sequence the result, bit-reflected, is the one remainder modulo x^16+x^15+x^2+1, and nothing else is |
| `CrcErrors.AcceptedIffPatternVanishes` | src/gateway.cpp:25-27 | an intact frame stays accepted after an error iff the error pattern alone feeds the zero register to zero |
| `CrcErrors.BurstDetected` | rtu-core/modbus_crc.c:10-17 | every error confined to 16 consecutive line bits is detected, at any frame length |
| `CrcErrors.ShiftKeepsParity` | rtu-core/modbus_crc.c:12-16 | the shift step preserves the parity of the register |
| `CrcErrors.OddErrorDetected` | rtu-core/modbus_crc.c:10-17 | every odd number of flipped bits is detected, at any frame length |
| `CrcOrder.PeriodIff` | rtu-core/modbus_crc.c:11-17 | the shift step returns the state 1 to itself exactly after the multiples of 32767 turns |
| `CrcOrder.DoubleErrorDetectedIff` | rtu-core/modbus_crc.c:9-18 | two flipped bits are detected iff their distance is no multiple of 32767, at any frame length |
| `CrcOrder.UpToThreeFlipsDetected` | src/gateway.cpp:25-27 | one, two or three flipped bits in a frame of at most 4095 bytes are always detected |
| `Mbap.EncodeDecode` | src/mbap.cpp:28-51 | a successful decode yields a legal frame of 8 to 260 bytes and consumes exactly its encoding |
| `Mbap.DecodeEncodeIff` | src/mbap.cpp:5-69 | an encoded frame followed by anything decodes to itself and consumes its encoding iff its protocol id is 0 and its PDU has 1 to 253 bytes |
| `Mbap.DecodeStable` | src/mbap.cpp:5-53 | every verdict but "need more data" is final under appended bytes |
| `Mbap.IncompleteIsShort` | src/mbap.cpp:37-41 | only a buffer of at most 259 bytes can be incomplete |
| `MbapWire.EncodedBytesAre` | src/mbap.cpp:55-69 | an encoded frame in numbers: transaction id, protocol id and the length of unit id and PDU modulo 65536, each high byte first, then unit id and PDU |
| `MbapWire.HeaderErrors` | src/mbap.cpp:9-35 | each error verdict iff the header bytes say so: protocol bytes not both 0; else a length below 2; else one above 254; at once, whatever follows |
| `MbapWire.FrameIsThere` | src/mbap.cpp:37-52 | a frame, with its ids and its PDU, iff the header is good and the bytes it announces have come |
| `MbapWire.IncompleteIff` | src/mbap.cpp:9-41 | more is needed iff fewer than 7 bytes have come or what has come properly begins the encoding of some legal frame |
| `Mbap.ParseEncoded` | src/main.cpp:112-142 | legal frames in front of a stream are parsed off it and parsing goes on behind them |
| `Mbap.StreamRoundTrip` | src/mbap.cpp:5-69 | a concatenation of encoded legal frames parses back to exactly those frames |
| `Mbap.ParsedAreLegal` | src/mbap.cpp:18-36 | a parse yields legal frames only |
| `Mbap.ParseStopsAtRest` | src/main.cpp:112-128 | decoding stops on the bytes left over for the stated reason |
| `Mbap.ParseAccountsForStream` | src/main.cpp:112-142 | a parse accounts for every byte: encodings of its frames, then what is left over |
| `Mbap.EncodingPrefixFree` | src/mbap.cpp:55-69 | if one stream of legal frames begins another, its frames begin the other's |
| `Mbap.ParseExtends` | src/main.cpp:104-143 | parsing is incremental, and a framing error is final |
| `Slave.WriteWord` | rtu-core/modbus_slave.c:11-15 | two bytes of the array become the word, all others stay |
| `Slave.SealInPlace` | rtu-core/modbus_slave.c:17-24 | the array holds the body followed by its CRC, low byte first |
| `Slave.Slave.constructor` | rtu-core/modbus_slave.c:40-56 | registers and counters are zero |
| `Slave.Slave.MakeException` | rtu-core/modbus_slave.c:26-36 | a sealed exception reply of 5 bytes, and exactly two counters go up |
| `Slave.Slave.CopyRegisters` | rtu-core/modbus_slave.c:126-128 | the loop appends the registers to the reply as big-endian words |
| `Slave.Slave.ReadHolding` | rtu-core/modbus_slave.c:101-131 | function 0x03 has the outcome, reply and final state of `Serve` on every path |
| `Slave.Slave.Acknowledge` | rtu-core/modbus_slave.c:155-161 | the sealed echo of a write |
| `Slave.Slave.WriteSingle` | rtu-core/modbus_slave.c:133-161 | function 0x06 has the outcome, reply and final state of `Serve` on every path |
| `Slave.Slave.StoreRegisters` | rtu-core/modbus_slave.c:193-195 | the loop overwrites exactly the addressed range with the words of the request |
| `Slave.Slave.WriteMultiple` | rtu-core/modbus_slave.c:163-206 | function 0x10 has the outcome, reply and final state of `Serve` on every path |
| `Slave.Slave.OtherFunction` | rtu-core/modbus_slave.c:208-213 | any other function is an illegal-function exception, or silence for a broadcast |
| `Slave.Slave.HandleFrame` | rtu-core/modbus_slave.c:58-215 | result code, reply bytes, registers and all six counters are those of `Station.Handle`, for any bytes |
| `StationContract.IgnoresWrongLength` | rtu-core/modbus_slave.c:69-73 | a frame shorter than 4 or longer than 256 bytes changes one counter and gets no reply |
| `StationContract.IgnoresWrongCrc` | rtu-core/modbus_slave.c:75-84 | so does a frame with a non-zero CRC over all of it, whatever its address |
| `StationContract.IgnoresOthers` | rtu-core/modbus_slave.c:86-90 | an intact frame for another unit changes nothing |
| `StationContract.DropsMisshapen` | rtu-core/modbus_slave.c:92-178 | an addressed frame whose length is wrong for its function code is counted as accepted and as a length error, and dropped |
| `StationContract.AppliesBroadcast` | rtu-core/modbus_slave.c:92-213 | a well-shaped broadcast writes what its bytes say, is counted, and is not answered |
| `StationContract.AnswersRequest` | rtu-core/modbus_slave.c:92-213 | any well-shaped request to the slave: its registers, its counters and the whole reply, in numbers of the request |
| `StationContract.RegistersAfter` | rtu-core/modbus_slave.c:86-206 | the registers after any intact frame, read off its bytes |
| `StationContract.SingleWriteIsEchoed` | rtu-core/modbus_slave.c:133-161 | an accepted 0x06 is answered with the request frame itself, byte for byte, and writes the one register |
| `StationContract.MultipleWriteIsAcknowledged` | rtu-core/modbus_slave.c:163-206 | an accepted 0x10 is answered with the first six bytes of the request, sealed |
| `StationContract.RefusalIsAnswered` | rtu-core/modbus_slave.c:26-36 | a refusal is the function code or-ed with 128 and the reason, sealed, and leaves the registers alone |
| `StationContract.OtherFunctionsAreRefused` | rtu-core/modbus_slave.c:208-213 | reason 1 for every function code but 3, 6 and 16 |
| `StationContract.ReadsAreRefused` | rtu-core/modbus_slave.c:114-121 | a read is refused with 3 for a quantity outside 1..125, else with 2 for a range beyond the registers |
| `StationContract.SingleWritesAreRefused` | rtu-core/modbus_slave.c:142-147 | a single write beyond the registers is refused with 2 |
| `StationContract.MultipleWritesAreRefused` | rtu-core/modbus_slave.c:179-191 | a multiple write is refused with 3 for a quantity outside 1..123 or another byte count than twice the quantity, else with 2 for a range beyond the registers |
| `StationLemmas.IntactIffZeroResidue` | rtu-core/modbus_slave.c:69-84 | for 4 to 256 bytes, what a slave trusts is what the gateway accepts |
| `StationLemmas.RepliesAreValid` | rtu-core/modbus_slave.c:111-131 | every reply has 5 to 255 bytes, zero residue, the slave's own address, which the request named, and the request's function code up to bit 7 |
| `StationLemmas.OnlyAcceptedWritesChange` | rtu-core/modbus_slave.c:133-206 | registers change only by an accepted write and then exactly in its range; rejected, malformed and excepted requests leave them alone |
| `StationLemmas.SinglesOverwrite` | rtu-core/modbus_slave.c:145-150 | a run of single writes overwrites exactly the range |
| `StationLemmas.MultipleIsManySingles` | rtu-core/modbus_slave.c:163-206 | an accepted multiple write leaves the registers as single writes of the same values would |
| `StationLemmas.ReadReply` | rtu-core/modbus_slave.c:101-131 | an understood read is answered with exactly the registers it names |
| `StationLemmas.WriteReadsBack` | rtu-core/modbus_slave.c:102-206 | reading back an accepted write returns the written values |
| `StationLemmas.WrittenBytes` | rtu-core/modbus_slave.c:193-195 | the values of a multiple write are its data bytes |
| `StationCounters.OneFrame` | rtu-core/modbus_slave.c:58-215 | the class of a frame is read off its bytes, the address and the register count; the frame has the result code of its class and moves exactly the counters of its class |
| `StationCounters.CountersTally` | rtu-core/modbus_slave.c:58-215 | over any run every counter is the number of frames in its classes, modulo 2^32 |
| `StationCounters.CounterConservation` | rtu-core/modbus_slave.c:26-215 | from a fresh slave, accepted frames are the answered, the broadcast and the unicast frames of wrong length; exceptions do not exceed responses iff the two kinds of answers do not wrap 2^32 together, as while fewer than 2^32 frames have been answered |
| `StationCounters.ExceptionsOvertakeResponses` | rtu-core/modbus_slave.c:26-36 | one unsupported request and 2^32 - 1 reads leave more exceptions than responses counted |
| `Bus.SeedNamesUnitAndRegister` | src/rtu_transport.hpp:62-63 | a seed names its unit and register iff the register is below 256 |
| `Bus.SeedBytes` | src/rtu_transport.hpp:62-63 | every seed: low byte of the register number, and the unit or-ed with its high byte |
| `Bus.TransactIs` | src/rtu_transport.hpp:72-82 | an empty request reaches nobody; of any other the slaves see the length modulo 65536 |
| `Bus.DamageFlipsPicked` | src/rtu_transport.hpp:128-131 | the draw names the byte whose low bit is flipped, any byte can be named, and all others stay |
| `Bus.ScanAdvances` | src/rtu_transport.hpp:77-86 | one turn of the scan loop leaves the rest of the scan with the result of the whole |
| `Bus.ScanReplies` | src/rtu_transport.hpp:77-86 | the bus answers only intact unicast frames, with a valid frame from the addressed unit |
| `Bus.FlippedBitPattern` | src/rtu_transport.hpp:128-131 | the injector's corruption is exactly one flipped bit of the line |
| `Bus.DamageIsDetected` | src/rtu_transport.hpp:128-131 | wherever the injector strikes, the residue is no longer zero |
| `Dispatch.Bystander` | rtu-core/modbus_slave.c:86-90 | a slave that is not addressed stays as it is, counters included; nobody answers a broadcast or a damaged frame |
| `Dispatch.ScanIsDirect` | src/rtu_transport.hpp:77-86 | with distinct unit ids the scan gives the reply and the final state of calling only the addressed slave; broadcasts and damaged frames reach every slave |
| `Dispatch.ScanIgnoresOrder` | src/rtu_transport.hpp:77-86 | reply and final state do not depend on the order of the slaves |
| `Dispatch.ScanIsPointwise` | src/rtu_transport.hpp:77-86 | after an exchange each slave is as if the frame had been handed to it alone, wherever the scan stopped; one that an intact unicast frame does not name keeps its whole state |
| `Dispatch.ScanKeepsDistinct` | src/rtu_transport.hpp:77-86 | distinct unit ids stay distinct |
| `Gateway.RtuRoundTrip` | src/gateway.cpp:5-35 | translating to RTU and back returns a frame of any length iff its protocol id is 0, it has a PDU and the part whose length fits 16 bits ends in the appended CRC; up to 65534 bytes of PDU, iff it has 1 to 65532 |
| `Gateway.TcpRoundTrip` | src/gateway.cpp:5-35 | an accepted RTU frame of any length is reproduced by translating it back iff it ends in the CRC that was checked, which is every frame shorter than 65536 bytes |
| `Gateway.OverlongIsNotReproduced` | src/gateway.cpp:26-27 | an accepted frame of 65540 bytes that is not reproduced: only its first four bytes are checked |
| `Gateway.LegalRequestIsIntact` | src/gateway.cpp:5-17 | a decoded frame becomes a request of 4 to 256 bytes that no slave rejects for length or CRC |
| `Gateway.AnyExchange` | src/rtu_transport.hpp:119-134 | an exchange of any length: a drop before the bus is reached, or a scan of the bytes the 16-bit length covers, whose reply may be damaged |
| `Gateway.AnyTransportKeepsTransactionId` | src/gateway.cpp:49-78 | over any transport the transaction id is the request's and forwarded is exactly what passed the CRC; the unit id is the request's iff nothing came back, it failed the CRC, or it names the same unit |
| `AnyTransport.TransactionIdsAreKept` | src/gateway.cpp:49-78 | for any number of clients over a transport that returns anything at any time, the k-th response of a client carries the transaction id of the k-th frame it sent, and is a frame that passed the CRC or the exception to that very request |
| `AnyTransport.BytesAreCarried` | src/main.cpp:130-139 | over such a transport the bytes sent to a client are a prefix of its encoded responses; when these are legal frames it decodes to them in order, each with the transaction id of the request at its place |
| `AnyTransport.IllegalIsOverlong` | src/gateway.cpp:19-35 | a response that is no legal frame is a forwarded reply of more than 256 bytes |
| `Gateway.ForwardedIsLegalIff` | src/gateway.cpp:19-35 | over any transport a forwarded reply is a legal frame iff it has at most 256 bytes |
| `Gateway.StrayRepliesAreForwarded` | src/gateway.cpp:28-34 | for every request, a reply from another unit and an overlong reply that are forwarded |
| `Gateway.LegalExchange` | src/rtu_transport.hpp:119-134 | for decoded requests no length is truncated: an exchange is a drop, or a scan whose reply may be damaged |
| `Gateway.PathUnavailableNever` | src/gateway.cpp:43-47 | to a request with a PDU, whatever its length and whatever the faults, neither the gateway nor a slave answers with exception 10 |
| `Gateway.FaultsBecomeExceptions` | src/gateway.cpp:52-77 | forwarded iff neither dropped nor damaged and answered, and then the slave's reply itself; damaged is a CRC failure; all else a timeout |
| `Gateway.ResponseMatchesRequest` | src/gateway.hpp:32-34 | over the in-process bus with faults, the response has the request's ids and function code, encodes to a decodable ADU, and is exception 11 iff the gateway made it |
| `RtuTransport.SeedRegisters` | src/rtu_transport.hpp:62-63 | the seeding loop |
| `RtuTransport.InProcessRtu.constructor` | src/rtu_transport.hpp:55-66 | distinct fresh slaves in the state of `FreshBus`, for any unit ids |
| `RtuTransport.InProcessRtu.Visit` | src/rtu_transport.hpp:77-84 | exactly one slave moves, as `Handle` says |
| `RtuTransport.InProcessRtu.Transact` | src/rtu_transport.hpp:68-87 | reply and the states of all slaves are those of the scan |
| `RtuTransport.FaultyRtu.constructor` | src/rtu_transport.hpp:116-117 | both fault counters start at zero |
| `RtuTransport.FaultyRtu.Transact` | src/rtu_transport.hpp:119-134 | drop before, damage after, and each fault counted exactly when it happens |
| `RtuTransport.NoFaultIsTransparent` | src/rtu_transport.hpp:119-134 | without faults the injector changes nothing |
| `GatewayService.EncodeFrame` | src/mbap.cpp:55-69 | the bytes appended are those of `Encode` |
| `GatewayService.BuildRtu` | src/gateway.cpp:5-17 | the bytes appended are those of `TcpToRtu` |
| `GatewayService.CheckRtu` | src/gateway.cpp:19-35 | a frame iff the length and the residue allow it |
| `GatewayService.GatewayStats.constructor` | src/gateway.hpp:37-44 | all counters are zero |
| `GatewayService.Gateway.Settle` | src/gateway.cpp:52-78 | the response, and exactly one outcome counted; with no reply or a wrong CRC it is exception 11 with the ids of the request |
| `GatewayService.Gateway.Handle` | src/gateway.cpp:37-79 | one response for any request; slaves, statistics and fault counters as one exchange; for an empty PDU the response has PDU 128, 10, two counters go up and nothing else changes; exception 10 iff the PDU is empty |
| `History.AnswersMatchRequests` | src/gateway.hpp:32-34 | in a sequential run each client gets one answer to each of its requests, in order, with its ids, and never exception 10 |
| `History.AnswerOfEvent` | src/gateway.cpp:37-79 | each exchange finds its answer at the position of its request among its client's |
| `History.FaultAccounting` | src/gateway.cpp:52-77 | over any log CRC failures are the corruptions, and timeouts are the drops and the unanswered exchanges |
| `History.LedgerCounts` | src/gateway.cpp:39-77 | the counters of the gateway object are the numbers of exchanges and of their fates, up to wrapping |
| `Registers.RequestWrites` | rtu-core/modbus_slave.c:133-206 | what a forwarded request does to a register, read off its PDU |
| `Registers.RegistersHoldLastWrites` | src/rtu_transport.hpp:58-86 | after any sequence of exchanges every register holds the last value written to it, or its seed |
| `Registers.ReadsReturnLastWrites` | rtu-core/modbus_slave.c:101-131 | a read without faults returns the last values written before it, or the seeds |
| `Registers.ResponsesAreDetermined` | src/gateway.cpp:37-79 | every response after any log, byte by byte: the ids of the request, and exception 11 for a fault or a request nobody answers, else what a slave says whose registers hold the last writes |
| `Registers.AnsweredIff` | src/rtu_transport.hpp:77-86 | the bus answers a forwarded request iff it is not a broadcast, its unit is on the bus and its PDU has the length its function calls for |
| `Registers.UnansweredIff` | src/rtu_transport.hpp:77-86 | over any log no exchange goes unanswered iff each was dropped or asked what the bus answers |
| `Registers.ExceptionsEqualFaultsIff` | test/test_gateway.cpp:369-373 | over any log the exchanges that end in exception 11 are as many as the injected faults iff each exchange was dropped or asked what the bus answers |
| `Registers.BroadcastTimesOut` | src/rtu_transport.hpp:86-86 | a broadcast read without faults: one exception 11, no injected fault |
| `ServeClient.SendAll` | src/main.cpp:133-139 | the bytes taken are the prefix that the calls of send take between them, no call is made once all are gone, and all go iff no call failed |
| `ServeClient.ServeFrame` | src/main.cpp:130-141 | one frame handled, sent and erased keeps the client's invariant and the gateway in step with the log; it fails iff one of its own sends did |
| `ServeClient.Drain` | src/main.cpp:112-142 | the drain loop ends, each of its ends leaves the stated verdict on the buffer, and it ends on a send iff one it made failed |
| `ServeClient.ServeConnection` | src/main.cpp:93-145 | requests handled, bytes sent, slaves and counters are those of a batch parse of the whole stream, for any cutting into chunks; it ends on a send iff one of the calls made failed, and then all responses but the last were sent in full |
| `ServerLocks.LocksKept` | src/rtu_transport.hpp:71-126 | every step keeps locks and program counters in agreement |
| `ServerLocks.SlavesChangeOnlyUnderBusLock` | src/rtu_transport.hpp:71-86 | slaves change only in a visit by the holder of the bus lock, one at a time |
| `ServerLocks.OtherClientsUntouched` | src/main.cpp:101-142 | no step of one client changes anything of another |
| `ServerLocks.SomeHolderCanStep` | src/rtu_transport.hpp:122-126 | when a client waits for a lock, the client that holds that lock can step |
| `ServerInvariant.ExchangeEnds` | src/rtu_transport.hpp:119-134 | when the outermost lock is given back, slaves and reply are those of the recorded event |
| `ServerInvariant.SlavesKept` | src/rtu_transport.hpp:68-87 | every step keeps the slaves, also in the middle of a scan, in agreement with the log |
| `ServerClients.ClientsKept` | src/main.cpp:101-143 | every step keeps every client's buffer, responses and output in agreement with its input and the log |
| `ServerClients.InvKept` | src/main.cpp:93-145 | the invariant of locks, slaves and clients is inductive |
| `ServerClients.ReachableInv` | src/main.cpp:267-298 | it holds in every reachable state, for any number of clients |
| `ServerStats.StatsKept` | src/gateway.cpp:39-77 | every step keeps every counter in agreement with the log and the program counters |
| `ServerStats.RequestConservation` | src/gateway.cpp:39-77 | in every reachable state requests are responses, timeouts, CRC failures and requests in flight; malformed is the number of connections closed for a framing error, up to wrapping |
| `ServerStats.FaultsAreCounted` | src/rtu_transport.hpp:125-131 | with nothing in flight, CRC failures equal corruptions, and timeouts are the drops and the unanswered exchanges |
| `ServerStats.ExceptionsAreInjectedFaults` | test/test_gateway.cpp:369-373 | in every reachable state with nothing in flight, gateway exceptions equal injected faults iff the unanswered exchanges are a multiple of 2^64; within 2^64 exchanges, iff each was dropped or asked what the bus answers |
| `ServerTheorems.SegmentationIndependence` | src/main.cpp:104-143 | the frames handled, the bytes left over and the reason for stopping are those of one batch parse of everything received; a framing error is final |
| `ServerTheorems.BufferIsBounded` | src/main.cpp:101-143 | the buffer never exceeds 1283 bytes, and 259 when draining is over |
| `ServerTheorems.RoutingInvariant` | src/gateway.hpp:32-34 | in every reachable state the k-th response of a client answers, with both ids, the k-th frame it sent |
| `ServerTheorems.PathUnavailableIsNeverSent` | src/gateway.cpp:43-47 | in every reachable state no response is exception 10 |
| `ServerTheorems.MalformedCloses` | src/main.cpp:115-128 | draining closes the connection iff a bad header is in front; then it adds no response, output, request or exchange, changes nothing else but one counter, and the thread never steps again |
| `ServerTheorems.DrainedReadsAgain` | src/main.cpp:104-116 | a thread with neither a complete frame nor a bad header in front is back at recv, and nothing else has changed |
| `ServerTheorems.FramesAreTaken` | src/main.cpp:112-130 | a complete frame in front of the buffer goes to the gateway, whatever stands behind it |
| `ServerTheorems.MalformedRun` | src/mbap.cpp:18-35 | every connection whose first bytes are a bad header is closed with nothing sent |
| `ServerTheorems.BadHeaders` | src/mbap.cpp:18-35 | three of them: protocol 1, length 1 and length 65535 |
| `ServerTheorems.OutputIsPrefix` | src/main.cpp:133-139 | the bytes sent are a prefix of the encoded responses, hold all but the last in full, and are all of them unless a send is under way or failed |
| `ServerTheorems.ClientReadsItsAnswers` | src/gateway.hpp:32-34 | whatever a client can decode of what it received answers, frame by frame, what it sent, and is never a framing error |
| `ServerTheorems.RunsAreSequential` | src/rtu_transport.hpp:71-126 | every run equals the sequential run in log order, in its slaves and in every client's responses |
| `ServerTheorems.LogGrowsUnderTheLock` | src/rtu_transport.hpp:71-126 | the log grows only by the pending request of the client that holds the outermost lock |
| `ServerTheorems.RunContinues` | src/main.cpp:101-143 | over any run the log, and every client's input, handled requests, responses and bytes sent, only grow at their ends |
| `ServerTheorems.LogRespectsRealTime` | src/rtu_transport.hpp:71-126 | a request that has its response in some state comes in the log before every request not yet exchanged in that state |
| `ServerTheorems.ResponseOfEvent` | src/gateway.cpp:49-78 | the response to each exchange is the sequential run's answer to that request |
| `ServerTheorems.FaultsAreAnswered` | src/gateway.cpp:52-77 | in every run each dropped, damaged or unanswered exchange gets the one PDU made of the function code with bit 7 set and 11, under its ids, and every other one the slave's own reply |
| `ServerTheorems.EveryResponseIsDetermined` | src/gateway.cpp:37-79 | in every run every response is, byte by byte, the expected one for its request at its place in the log: exception 11, a refusal with its reason, the echo of a write, or the registers read |
| `ServerTheorems.EnvironmentIsFree` | src/main.cpp:104-139 | nothing is asked of masters, network and injector: connections, chunks, partial sends, failures, drops and damage are free |
| `ServerTheorems.ReadsAreLinearizable` | src/rtu_transport.hpp:58-86 | in every run a read returns, register by register, the last write before it in log order, or the seed |
| `ServerTheorems.RegistersAreLinearizable` | src/rtu_transport.hpp:58-86 | with no exchange under way every register holds the last write in log order, or the seed |
| `ServerTheorems.MutualExclusion` | src/rtu_transport.hpp:71-71 | at most one client is inside the scan, and one inside the injector |
| `ServerTheorems.NoDeadlock` | src/rtu_transport.hpp:122-126 | every thread that has not ended can step, or waits for a lock whose holder, another thread, can step |
| `ServerProgress.OwnStepsAreFinite` | src/main.cpp:112-142 | every step of a thread but receiving lowers a number computed from its buffer and program counter, and each frame takes at least 8 bytes off the buffer |
| `ServerProgress.OthersCostNothing` | src/main.cpp:101-142 | no step of another thread changes that number |
| `ServerProgress.OwnStepsAreBounded` | src/main.cpp:104-143 | from any reachable state on, in any interleaving, a thread that receives no more takes at most that many own steps, so drain loop, scan and partial sends end |
| `ServerEnds.ConnectionsEndForTheirCause` | src/main.cpp:104-144 | over any run a connection counts as left by its peer iff recv ended it, and as broken off iff a send failed; with neither, it is closed only for a bad header in front of its buffer |
| `ServerEnds.AnyTransportEndsForTheirCause` | src/main.cpp:104-144 | the same over a transport that returns anything |
| `ServerService.RequestIsServed` | src/main.cpp:104-143 | from any state of the invariant with the locks free, the rest of a frame and any fault lead on to its exchange, its whole answer and the thread back at recv, while no other client moves |
| `ServerService.EverySequentialRunIsPossible` | src/main.cpp:267-298 | every log of legal requests and faults that can hit them is the log of a reachable state in which every master has all its answers |

## Left out

- `src/serial_rtu.hpp`: the serial port, its timeouts and reconnection. `AnyTransport` says what holds over any transport.
- Sockets, signals, options, configuration files, `parse_units`, printing and `main`, except for what accepting a connection does to the set of threads.
- The distributions and rates of the injector's random numbers: every draw is arbitrary.
- `to_string(DecodeError)`, and `bad_unit` of the statistics, which the code never updates.
- The memory model of the atomic counters: each increment is one step.
- The interface `IRtuTransport`: the gateway object is built on `FaultyRtu`, which `RtuTransport.NoFaultIsTransparent` makes an `InProcessRtu` when no fault is drawn; `Server` has both with the flag `faulty`.
- The data structure behind the buffer of `serve_client`: appending and erasing are operations on a sequence.
- ServeClient.ServeConnection: does not interleave with other threads; `Server` and `ServerTheorems` do.
- That a thread waiting for a mutex gets it in the end: mutexes are not fair, and `ServerTheorems.NoDeadlock` promises only that some thread can step.
