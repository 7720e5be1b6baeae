# bilib in Dafny

bilib is the host-side control and data-exchange layer of a cycle- and
time-accurate co-simulation. A test bench written in Python drives a
hardware simulator through it: the simulator runs under a small C++
library (SiCo) and its VPI glue, and the two sides exchange framed
messages over a socket. This project models the core of that layer and
proves what its parts promise.

- **Time** (`tme.dfy`): logical time `Tme`, a value in either a period
  domain (picoseconds and the SI units above them: n, u, m, s) or a cycle domain,
  with its text form and its byte encoding.
- **Signals** (`signal.dfy`): the nine-valued logic `L9`, bit vectors
  of it and their conversion to and from integers.
- **Ports** (`pipe.dfy`, `items.dfy`): the typed port graph of choc —
  sockets and their directions, the `Gate` rendezvous, `Request` and
  commit, probes, the clock generator.
- **Wire protocol** (`comm.dfy`, `big_endian.dfy`, `decimal.dfy`): the
  framed messages of sico, the `Control` tick/tock exchange, breaks,
  waits and channels.
- **Simulator side** (`sico.dfy`, `sico_control.dfy`, `sico_vpi.dfy`):
  the C++ message codec, the shared control state of the simulator, and
  the VPI callbacks that drive it.
- **Collaborators**: the helper functions of `fn.py` (`fn.dfy`), the
  register file of biset and its access layer (`register.dfy`,
  `biset.dfy`, `access.dfy`), memory requests of bimem (`bimem.dfy`),
  the 8b/10b line code and its serialiser and deserialiser
  (`code8b10b.dfy`, `serdes8b10b.dfy`), the LFSR pseudo-random generator
  (`prng.dfy`), the test-result accumulator (`errors.dfy`) and the
  license-header tool (`header_text.dfy`, `header.dfy`,
  `header_final.dfy`, `header_main.dfy`).

Pure code is modelled as datatypes, functions and lemmas. Objects whose
methods update their fields are classes, and each of their methods is
proved against a function of the old state. Errors the source raises
are `Err` values of a `Result` (`wrappers.dfy`), and integer helpers
live in `arith.dfy`.

## Model

| member | source | states |
|---|---|---|
| Time.TypeToBytes | choc/python/choc/types.py:23-27 | the domain is one byte that `TmeType.fromBytes` reads back as the same domain |
| Time.OfInt | choc/python/choc/types.py:47-50 | a time built from an int and a domain is valid, has that domain and that value |
| Time.OfIntOfSelf | choc/python/choc/types.py:112-116 | rebuilding a valued time from its value and its domain gives the same time |
| Time.New | choc/python/choc/types.py:34-61 | the constructor yields only valid times; from an int and a domain it is `OfInt`; with no value it succeeds exactly when a period or a cycle is given |
| Time.NewNeverBreaksInvariant | choc/python/choc/types.py:61 | the closing both-domains assertion never fires when the time copied from is valid |
| Time.CompDomain | choc/python/choc/types.py:122-128 | comparing two valued times succeeds exactly when they have the same domain |
| Time.CompTotalOrder | choc/python/choc/types.py:122-128 | comparison is antisymmetric, is 0 exactly for equal times and is negative exactly when the value is smaller |
| Time.LeTransitive | choc/python/choc/types.py:142-143 | `<=` is transitive |
| Time.AddSubDomain | choc/python/choc/types.py:158-168 | adding or subtracting raises across domains, succeeds on valued operands of one domain, and keeps the domain of the left operand |
| Time.AddThenSub | choc/python/choc/types.py:158-174 | `(a + b) - b == a` |
| Time.MulInt | choc/python/choc/types.py:145-149 | a time times an int succeeds exactly for a valued time; the product keeps the domain and multiplies the value |
| Time.MulTmeAlwaysRaises | choc/python/choc/types.py:150-151 | the product of two times, as written, raises for every pair of valid times |
| Time.MulTmeIntended | choc/python/choc/types.py:150-151 | the intended product succeeds exactly for valued times of different domains and is a period whose value is the product of the values |
| Time.FloorDivBounds | choc/python/choc/types.py:177 | Python's `//` brackets the quotient from below for a positive divisor and from above for a negative one |
| Time.DivInt | choc/python/choc/types.py:176-178 | division by an int succeeds exactly for a valued time and a nonzero divisor, keeps the domain, and floors the quotient |
| Time.DivTme | choc/python/choc/types.py:179-181 | dividing two periods succeeds exactly for valued periods and a nonzero divisor, and gives a cycle count that is the floored quotient |
| Time.FromFreq | choc/python/choc/types.py:118-120 | a frequency gives a period, E12 floor-divided by it, and raises for a zero frequency |
| Time.Zero | choc/python/choc/types.py:206-218 | `zero` is the value 0 in the domain of the reference, a period when there is none |
| Time.ToBytes | choc/python/choc/types.py:185-187 | the wire form exists exactly for values in 0 .. 2^64-1; it is nine bytes ending in the domain byte |
| Time.BytesRoundTrip | choc/python/choc/types.py:185-204 | `fromBytes(toBytes(t) + rest) == t` for every encodable time and any trailing bytes |
| Time.CycleBytesExample | choc/python/choc/types.py:185-187 | `123c` goes out as the count in eight big-endian bytes, then domain byte 1 |
| Time.PeriodBytesExample | choc/python/choc/types.py:185-187 | `123n` goes out as 123000 in eight big-endian bytes, then domain byte 0 |
| Time.DigitRun | choc/python/choc/types.py:30 | the longest prefix of digits, which `\d+` in the pattern takes |
| Time.MatchFrom | choc/python/choc/types.py:30 | the unit groups from group k on, and the end anchor, as the pattern matches them |
| Time.Match | choc/python/choc/types.py:30-67 | a match of the time pattern has its six groups |
| Time.ParseStr | choc/python/choc/types.py:63-81 | the method computes `ParseSpec`: no match raises, a cycle group gives a cycle count, otherwise the sum of the unit groups |
| Time.SumGroups | choc/python/choc/types.py:73-80 | the accumulation loop sums each present group times its unit weight, and leaves None when no group is present |
| Time.FormatUnits | choc/python/choc/types.py:91-103 | the unit loop prints the leading unit unpadded and every later one zero-padded to three digits |
| Time.Str | choc/python/choc/types.py:83-104 | the method computes `FormatSpec`: "<n>c" for cycles, a sign and the units for periods |
| Time.UnitsParse | choc/python/choc/types.py:72-103 | the units printed from a count parse back, group by group, to that count |
| Time.PeriodTextRoundTrip | choc/python/choc/types.py:64-104 | printing a positive period and parsing the text gives the same period, also through the string constructor |
| Time.CycleTextRoundTrip | choc/python/choc/types.py:34-86 | printing a cycle count and parsing "<n>c" gives the same count, also through the string constructor |
| Time.NewOfParsedText | choc/python/choc/types.py:37-42 | the string constructor stores what `parseStr` returns in the domain it names |
| Time.ZeroPeriodText | choc/python/choc/types.py:83-104 | a zero period prints as the empty text |
| Time.EmptyTextHasNoValue | choc/python/choc/types.py:64-81 | the empty text parses to a period with no value, so zero does not survive printing and parsing |
| Time.MaskAt | choc/python/choc/types.py:75-103 | the weight of each of the five units s, m, u, n, p is positive |
| Time.CycleTextSkipsUnits | choc/python/choc/types.py:30-71 | a cycle text such as `12c` matches none of the period unit groups |
| Time.PeriodTextParse | choc/python/choc/types.py:64-104 | a positive period printed without padding parses back to itself |
| Time.ParseOfUnitGroups | choc/python/choc/types.py:72-81 | text whose unit groups all match is the period they add up to |
| Time.UnitsOfZero | choc/python/choc/types.py:99-100 | a zero value prints no unit groups |
| Signal.L9.Code | choc/python/choc/types.py:247-284 | `int(v)` is one of the sixteen nibble values |
| Signal.L9.ToInt | choc/python/choc/types.py:286-291 | `toInt()` without force succeeds exactly on 0 and 1, raises NotPureSignal otherwise, and gives back the value's own code |
| Signal.CodeRoundTrip | choc/python/choc/types.py:247-284 | `L9(int(v)) == v` for every value |
| Signal.FromCode | choc/python/choc/types.py:247-262 | `L9(n)` exists exactly for 0..6, 0xa and 0xe, and its code is n |
| Signal.Value | choc/python/choc/types.py:413-417 | the number of a pure vector of width w is below 2^w |
| Signal.FromInt | choc/python/choc/types.py:354-360 | `Bits(num, width)` has the width and holds only 0 and 1 |
| Signal.IntRead | choc/python/choc/types.py:354-360 | the loop of `_intRead` builds `FromInt(num, width)`: bit i of num at index i |
| Signal.ToInt | choc/python/choc/types.py:413-417 | the loop of `Bits.toInt` gives the vector's number, or NotPureSignal at the first bit that is not 0 or 1 |
| Signal.FromIntTail | choc/python/choc/types.py:354-360 | bit 0 of `Bits(n, w)` is n's low bit, and the rest is `Bits(n // 2, w - 1)` |
| Signal.ToIntOfFromInt | choc/python/choc/types.py:354-417 | `Bits(n, w).toInt() == n mod 2^w`, negative n included |
| Signal.FromIntOfValue | choc/python/choc/types.py:354-417 | `Bits(b.toInt(), len(b)) == b` for a pure vector |
| Signal.Concat | choc/python/choc/types.py:456-458 | `a + b` keeps a's bits at the bottom and b's above them |
| Signal.ValueOfConcat | choc/python/choc/types.py:413-458 | the number of `a + b` is `a.toInt() + (b.toInt() << len(a))` |
| Signal.MatchFromAll | choc/python/choc/types.py:460-470 | the loop of `match` from position k accepts exactly when every later pair is compatible |
| Signal.MatchMeans | choc/python/choc/types.py:460-470 | `match` holds exactly for equal widths whose bits pair up equal or with a don't-care |
| Signal.MatchReflexiveSymmetric | choc/python/choc/types.py:460-470 | `match` is reflexive and symmetric |
| Signal.MatchNotTransitive | choc/python/choc/types.py:460-470 | `match` is not transitive: 0 matches D and D matches 1, but 0 does not match 1 |
| Signal.PackLen | choc/python/choc/types.py:405 | the pack holds `((s-1)//2)+1` bytes |
| Signal.Packed | choc/python/choc/types.py:403-409 | the packed payload has one byte per pair of bits |
| Signal.BytesSpec | choc/python/choc/types.py:402-411 | `toBytes` succeeds exactly for widths that fit the two-byte header, and gives the header and the pack |
| Signal.PackStep | choc/python/choc/types.py:407-409 | one pass of the packing loop ORs the bit's nibble into its own byte and leaves the others alone |
| Signal.ToBytes | choc/python/choc/types.py:402-411 | the packing loop computes `BytesSpec` |
| Signal.Unpacked | choc/python/choc/types.py:392-399 | the vector read from a payload of valid nibbles has one value per nibble, in order |
| Signal.FromBytes | choc/python/choc/types.py:390-399 | the unpacking loop computes `UnpackSpec`: IndexError on a short payload, ValueError on a nibble that is not an L9 |
| Signal.NibRoundTrip | choc/python/choc/types.py:392-409 | the nibble read back for bit idx is the code packed for it |
| Signal.BytesRoundTrip | choc/python/choc/types.py:390-411 | `Bits.fromBytes(b.toBytes()) == b` for every width below 2^16 |
| Signal.Shifted | choc/python/choc/types.py:496-500 | a shift needs the change's domain; it keeps value and sync, adds the time when relative and replaces it otherwise |
| Signal.ShiftedBack | choc/python/choc/types.py:496-500 | shifting by t and then by -t gives the change back |
| Signal.ChangeBytesSpec | choc/python/choc/types.py:502-505 | a change goes out as nine time bytes, one sync byte and the packed bits |
| Signal.ChangeToBytes | choc/python/choc/types.py:502-505 | the method computes `ChangeBytesSpec` |
| Signal.ChangeFromBytes | choc/python/choc/types.py:507-512 | the method computes `ChangeFromSpec`: time, then sync (any nonzero byte is true), then bits |
| Signal.ChangeRoundTrip | choc/python/choc/types.py:502-512 | `Change.fromBytes(c.toBytes(), Bits) == c` when the time and the width are encodable |
| Pipe.Updated | choc/python/choc/pipe.py:52-59 | `update` takes each attribute the other type sets and keeps the rest |
| Pipe.MatchReflexiveSymmetric | choc/python/choc/pipe.py:44-50 | `match` is reflexive and symmetric |
| Pipe.MatchWildcard | choc/python/choc/pipe.py:44-50 | the all-None type matches everything; two fully set types match only when equal |
| Pipe.UpdatedNarrows | choc/python/choc/pipe.py:44-59 | after `update(b)` the type matches b, a second `update(b)` changes nothing, and an update with a matching type only narrows what matches |
| Pipe.PipeType.constructor | choc/python/choc/pipe.py:26-30 | a new type holds the three attributes it was given |
| Pipe.PipeType.Update | choc/python/choc/pipe.py:52-59 | the method leaves the type at `Updated(old, other)` |
| Pipe.Direction.Opposing | choc/python/choc/pipe.py:76-77 | `opposing` gives the other direction |
| Pipe.TypeOf | choc/python/choc/pipe.py:61-71 | `PipeType.fromObject` of a data value always names its Python type, and a type matches itself |
| Pipe.Gate.constructor | choc/python/choc/pipe.py:324-331 | a new gate is idle, empty, with nothing pushed or pulled |
| Pipe.Gate.PushDeposit | choc/python/choc/pipe.py:336-346 | from idle, `push` stores the value and moves to pushing |
| Pipe.Gate.Pull | choc/python/choc/pipe.py:356-370 | from pushing, `pull` returns the last value pushed and moves to pulled |
| Pipe.Gate.PushFinish | choc/python/choc/pipe.py:347-353 | from pulled, `push` returns and the gate is idle again |
| Pipe.HandOff | choc/python/choc/pipe.py:333-370 | a push met by a pull hands over exactly the pushed value and leaves every value pushed also pulled |
| Pipe.Socket.constructor | choc/python/choc/pipe.py:125-140 | a new socket has its name, direction and type and is not connected |
| Pipe.Socket.ConnectForward | choc/python/choc/pipe.py:173-182 | joining fails exactly on a socket that already has a pipe; otherwise both sockets share one new idle gate and are connected |
| Pipe.Socket.Send | choc/python/choc/pipe.py:146-157 | `send` succeeds exactly on a sender whose type matches the value's (out-of-band values always pass); the type narrows and the value is deposited in the gate |
| Pipe.Socket.Recv | choc/python/choc/pipe.py:159-171 | `recv` fails on a sender; on a receiver it pulls the stored value, which passes exactly when out-of-band or matching, and narrows the type |
| Pipe.Item.constructor | choc/python/choc/pipe.py:190-194 | a new item has no sockets |
| Pipe.Item.Sockets | choc/python/choc/pipe.py:224-225 | `iterSockets` yields the sockets in the order they were added |
| Pipe.Item.ItemAdd | choc/python/choc/pipe.py:203-210 | adding raises exactly on a name already taken; otherwise a new unconnected socket named `<item>+<name>` or `<item>-<name>` is added under the name |
| Pipe.Item.ItemGet | choc/python/choc/pipe.py:218-222 | `itemGet` returns the socket of the name, and raises exactly when there is none |
| Pipe.PortName | choc/python/choc/items.py:75-94 | a forged port is called `in<n>`, never `out` |
| Pipe.PortNameInjective | choc/python/choc/items.py:75-94 | different port numbers give different port names |
| Pipe.ForgeType | choc/python/choc/items.py:72-110 | an item forges a receiver exactly when it has a forging type that the offered type matches |
| Pipe.NewPort | choc/python/choc/items.py:92-97 | `newPort` adds receiver `in<nPorts>` and counts it; a taken name raises before the count changes |
| Pipe.ForgeRecvSocket | choc/python/choc/items.py:72-111 | `forgeRecvSocket` returns a new receiver of the forging type exactly when `ForgeType` allows it, and changes nothing otherwise |
| Pipe.FindReceiver | choc/python/choc/pipe.py:256-263 | the inner loop of `connect` picks the first free receiver that matches, or reports none |
| Pipe.ChoosePeer | choc/python/choc/pipe.py:256-269 | the peer of one sender is the first matching free receiver of b, else a receiver b forges, else none when no receiver is free and b does not forge |
| Pipe.DistinctAll | choc/python/choc/pipe.py:253-269 | sockets listed without repeats are pairwise different |
| Pipe.PairsSnoc | choc/python/choc/pipe.py:259-269 | joining one more sender to a receiver it matches extends the joined pairs |
| Pipe.JoinChosen | choc/python/choc/pipe.py:259-269 | joining a sender to its chosen peer adds the pair and covers the sender |
| Pipe.ConnectTurn | choc/python/choc/pipe.py:253-269 | one turn of the outer loop keeps b's old sockets and adds a joined pair, or leaves the sender stranded |
| Pipe.Connect | choc/python/choc/pipe.py:249-280 | `connect` joins each free sender of a to a distinct matching receiver of b (old or forged), raises when nothing was joined, and leaves no free sender for which a matching receiver was free |
| Pipe.Request.constructor | choc/python/choc/pipe.py:284-289 | a new request has no result, is not done and has no callback |
| Pipe.Request.SetCallBack | choc/python/choc/pipe.py:291-293 | the callback is registered and nothing else changes |
| Pipe.Request.Commit | choc/python/choc/pipe.py:295-300 | `commit` stores the result, sets done and schedules the callback if one is registered |
| Pipe.CommitTwice | choc/python/choc/pipe.py:295-300 | a second commit overwrites the first result and schedules the callback again |
| Items.FirstMarker | choc/python/choc/items.py:64-68 | the position of the first out-of-band marker in a stream, or its length; everything before it is data |
| Items.ConverterRun | choc/python/choc/items.py:62-70 | `Converter.run` sends `convert` of each data value in order, passes the first marker on and stops there |
| Items.IntToBitsConvert | choc/python/choc/items.py:189-190 | `IntToBits.convert` gives a pure vector of the width whose number is the value modulo 2^width |
| Items.BitsToIntConvert | choc/python/choc/items.py:196-201 | `BitsToInt.convert` gives the number of a pure vector and 0 for any other |
| Items.IntToBitsToInt | choc/python/choc/items.py:189-201 | converting to bits and back gives the value modulo 2^width |
| Items.BitsToIntNotPure | choc/python/choc/items.py:196-201 | one bit that is not 0 or 1 makes the conversion 0 |
| Items.ClockedSignal.constructor | choc/python/choc/items.py:284-286 | the cycle counter starts at 0 |
| Items.ClockedSignal.Convert | choc/python/choc/items.py:288-291 | each value leaves as an asynchronous change at the current cycle, and the cycle advances by one |
| Items.ClockedRun | choc/python/choc/items.py:283-291 | the k-th value converted becomes a change at cycle k |
| Items.RangeRun | choc/python/choc/items.py:233-237 | `Range.run` sends `range(start, stop, step)` then PipeEnd; step 0 raises |
| Items.Tick | choc/python/choc/items.py:216-220 | the k-th time a clock emits is start plus k periods, of start's domain |
| Items.NextTick | choc/python/choc/items.py:219-220 | adding one period to the k-th tick gives the next tick |
| Items.ClockRun | choc/python/choc/items.py:214-221 | `Clock.run` sends the ticks while they are before stop, then PipeEnd; without stop it runs for the given number of ticks |
| Items.Ids | choc/python/choc/items.py:407-409 | the request ids of the committed pairs, in order |
| Items.BitsReqToInterface.constructor | choc/python/choc/items.py:379-386 | the queue is empty and the send cycle starts at 1 |
| Items.BitsReqToInterface.Send | choc/python/choc/items.py:388-399 | each request is queued and its bits leave as an asynchronous change at the current cycle |
| Items.BitsReqToInterface.Receive | choc/python/choc/items.py:401-409 | each incoming change commits its value to the oldest queued request |
| Items.FifoPairing | choc/python/choc/items.py:388-409 | the k-th value committed goes to the k-th request taken |
| Items.IsEdge | choc/python/choc/items.py:458-471 | an edge of kind pos is bit 0 going from 0 to 1, neg from 1 to 0, any any change; an empty vector raises only when read |
| Items.Read | choc/python/choc/items.py:440-445 | the value read once aligned: the second change at its time, else the first, and the first when no second is known |
| Items.ReadAtFirstChange | choc/python/choc/items.py:432-442 | a probe at the time of its only change fails to read it as written, and reads it in the corrected form |
| Items.Probe.constructor | choc/python/choc/items.py:413-417 | a probe starts at time zero with no changes |
| Items.Probe.Seek | choc/python/choc/items.py:419-424 | `seek` moves to the absolute or relative position, and raises exactly on a move backwards |
| Items.Probe.Recv | choc/python/choc/pipe.py:159-171 | the probe's socket delivers the next change, and blocks when there is none |
| Items.Probe.Align | choc/python/choc/items.py:428-438 | after `_align` the position is at the first change or before the second; with edge there are two changes and at least one was fetched when the position had reached the second |
| Items.Probe.CcRead | choc/python/choc/items.py:440-445 | `ccRead` aligns without moving and returns `Read` of the aligned changes |
| Items.Probe.CcNextEdge | choc/python/choc/items.py:447-472 | `ccNextEdge` stops at a change that differs from the one before and is an edge of the kind, or at maxTime when the next change is not before it |
| SiCo.Freq2Period | sico/cpp/SiCo.h:48-51 | `freq2period` is the truncated quotient of 10^12 by the frequency, the same period `Tme.fromFreq` gives |
| SiCo.Period2Freq | sico/cpp/SiCo.h:48-54 | `period2freq` is the truncated quotient of 10^12 by the period |
| SiCo.FreqPeriodRoundTrip | sico/cpp/SiCo.h:48-54 | for a frequency that divides 10^12, converting to a period and back gives the frequency |
| SiCo.Get | sico/cpp/SiCo.cc:40-54 | a big-endian read of n bytes is below 256^n |
| SiCo.Written | sico/cpp/SiCo.cc:62-76 | a write of bytes at an index puts them there and leaves every other byte alone |
| SiCo.GetEncoded | sico/cpp/SiCo.cc:40-76 | reading back the big-endian encoding of a value that fits gives the value |
| SiCo.U32Fits | sico/cpp/SiCo.cc:48-70 | a 32-bit value fits four bytes |
| SiCo.U64Fits | sico/cpp/SiCo.cc:52-74 | a 64-bit value fits eight bytes |
| SiCo.WrittenTwice | sico/cpp/SiCo.cc:248-254 | two writes side by side are one write of both |
| SiCo.WrittenUpdate | sico/cpp/SiCo.cc:740-742 | storing one byte inside a written block is writing the block with that byte changed |
| SiCo.Put | sico/cpp/SiCo.cc:62-76 | the `put` loop writes the value big-endian into its n bytes of the buffer and changes no other byte |
| SiCo.GetOfPut | sico/cpp/SiCo.cc:40-76 | reading n bytes back after putting a value gives the value modulo 256^n |
| SiCo.SimTimeBytes | sico/cpp/SiCo.cc:78-81 | a time goes out as nine bytes, the last 1 for cycles and 0 otherwise |
| SiCo.SimTimeBytesAreTmeBytes | sico/cpp/SiCo.cc:78-81 | those nine bytes are the bytes the host's `Tme.toBytes` gives for the same time |
| SiCo.PutSimTime | sico/cpp/SiCo.cc:78-81 | `putSimTime` writes those nine bytes and changes no other byte |
| SiCo.GetSimTimeAsWritten | sico/cpp/SiCo.cc:56-59 | `getSimTime` as written reads the cycles flag from the tenth byte |
| SiCo.GetSimTime | sico/cpp/SiCo.cc:56-59 | the corrected read takes the flag from the ninth byte |
| SiCo.SimTimeRoundTrip | sico/cpp/SiCo.cc:56-81 | the corrected read gives back every time and flag `putSimTime` wrote |
| SiCo.GetSimTimeAsWrittenMisreads | sico/cpp/SiCo.cc:56-81 | a cycle time followed by a zero byte reads back as a period time as written, and correctly once fixed |
| SiCo.Chomp | sico/cpp/SiCo.cc:83-107 | `chomp` prints a time as the host's `Tme.__str__` does: `<n>c` for cycles, otherwise the unit groups from the first nonzero one |
| SiCo.StringToSeverity | sico/cpp/SiCo.cc:190-204 | each level name in lower or upper case gives its severity, and anything else gives info |
| SiCo.GetLogLevel | sico/cpp/SiCo.cc:171-184 | the level of a scope is the one of its longest configured prefix, or info when none is configured |
| SiCo.Pack | sico/cpp/SiCo.cc:248-254 | a packed message is `getSize()` bytes long |
| SiCo.MessageOfRaw | sico/cpp/SiCo.cc:206-221 | a decoded message's size lies between 8 and the length of the raw bytes |
| SiCo.PackRoundTrip | sico/cpp/SiCo.cc:206-254 | decoding a packed message gives the message back |
| SiCo.RecvMessage | sico/cpp/SiCo.cc:464-504 | `recvMessage` takes one frame of 16 to 1 MiB bytes off the stream and aborts the connection on a length outside that range |
| SiCo.RecvOfPacked | sico/cpp/SiCo.cc:485-504 | a packed message of legal size is received whole and leaves the rest of the stream |
| SiCo.HostFrameIsPack | sico/python/sico/comm.py:57-67 | the host's `Message.toBytes` gives the same frame as the simulator's `pack` |
| SiCo.HostFrameReceived | sico/python/sico/comm.py:57-67 | a host frame of legal size is received by the simulator as the same channel and data |
| SiCo.SimulatorFrameRead | sico/python/sico/comm.py:129-132 | a simulator frame is read by the host as the same channel and data |
| SiCo.PackNibbles | sico/cpp/SiCo.cc:734-744 | the payload of a vector has one byte per two values |
| SiCo.BitsBytes | sico/cpp/SiCo.h:346 | the whole dump is `rawSize()` bytes |
| SiCo.PackState | sico/cpp/SiCo.cc:737-743 | the payload after i passes of the packing loop keeps its length |
| SiCo.PackStateStep | sico/cpp/SiCo.cc:738-742 | pass i stores value i in the low nibble of its byte, or ORs it into the high nibble |
| SiCo.PackStateDone | sico/cpp/SiCo.cc:737-743 | after every pass the payload is `PackNibbles` whatever the buffer held |
| SiCo.StoreNib | sico/cpp/SiCo.cc:739-742 | storing a nibble: an even index overwrites the byte, an odd one adds it above a low nibble |
| SiCo.PackStateInit | sico/cpp/SiCo.cc:734-737 | before the first pass the buffer is unchanged |
| SiCo.PackStored | sico/cpp/SiCo.cc:738-742 | one pass on the buffer is one step of `PackState` |
| SiCo.PackStep | sico/cpp/SiCo.cc:738-742 | the body of the packing loop |
| SiCo.PackInto | sico/cpp/SiCo.cc:737-743 | the packing loop writes `PackNibbles` and changes no other byte |
| SiCo.BitsRawDump | sico/cpp/SiCo.cc:734-744 | `bits::rawDump` writes the width and the payload and changes no other byte |
| SiCo.Unpack | sico/cpp/SiCo.cc:723-732 | `bits(raw)` reads as many values as the two width bytes say |
| SiCo.BitsOfRaw | sico/cpp/SiCo.cc:723-732 | the reading loop computes `Unpack` |
| SiCo.NibRoundTrip | sico/cpp/SiCo.cc:723-744 | the nibble read for value i is the one dumped for it |
| SiCo.BitsRoundTrip | sico/cpp/SiCo.cc:723-744 | reading a dumped vector gives it back |
| SiCo.WidthRoundTrip | sico/cpp/SiCo.cc:724-736 | the width read is the width dumped |
| SiCo.Codes | sico/cpp/SiCo.h:313-323 | the simulator's values are the host's codes, one for one |
| SiCo.HostBitsAreRawDump | sico/cpp/SiCo.cc:734-744 | the host's `Bits.toBytes` gives the same bytes as `bits::rawDump` |
| SiCo.ChangeBytes | sico/cpp/SiCo.h:362 | a dumped change is `rawSize()` bytes |
| SiCo.ChangeRawDump | sico/cpp/SiCo.cc:772-776 | `change::rawDump` writes time, flag, sync and vector and changes no other byte |
| SiCo.ChangeRoundTrip | sico/cpp/SiCo.cc:754-776 | reading a dumped change gives it back |
| SiCo.HostChangeDecoded | sico/cpp/SiCo.cc:754-761 | a change the host's `Change.toBytes` sends is read by the simulator with the same time, domain, values and sync |
| SiCo.CharOf | sico/cpp/SiCo.h:325-341 | the character map covers codes 0 to 14 and gives a blank exactly for codes that are not a value |
| SiCo.CharOfInjective | sico/cpp/SiCo.h:325-341 | different values print differently |
| SiCoControl.MessageQueue.constructor | sico/cpp/SiCo.cc:256-260 | a new queue is empty |
| SiCoControl.MessageQueue.Push | sico/cpp/SiCo.cc:262-270 | `push` appends the message at the back |
| SiCoControl.MessageQueue.Pop | sico/cpp/SiCo.cc:272-283 | `pop` takes the front message off a queue that holds one |
| SiCoControl.TockData | sico/cpp/SiCo.cc:590-597 | a tock is 13 bytes: the command and the current time |
| SiCoControl.BreakReply | sico/cpp/SiCo.cc:662-679 | an acknowledgement or hit is 17 bytes: command, id and time |
| SiCoControl.CommandReadByHost | sico/python/sico/comm.py:174-178 | the host reads the command the simulator put in the first four bytes |
| SiCoControl.TimeReadByHost | sico/python/sico/comm.py:364 | the host reads a period time the simulator put with `putSimTime` |
| SiCoControl.TockReadByHost | sico/python/sico/comm.py:362-364 | the host reads a tock as the tock command and the simulator's time |
| SiCoControl.BreakReplyReadByHost | sico/python/sico/comm.py:368-375 | the host reads an acknowledgement or hit as its command, the break's id and its time |
| SiCoControl.MakeTock | sico/cpp/SiCo.cc:592-594 | the tock message on the control channel |
| SiCoControl.MakeBreakReply | sico/cpp/SiCo.cc:662-678 | the reply message on the control channel |
| SiCoControl.MakeShutdown | sico/cpp/SiCo.cc:639-645 | the shutdown message is the four-byte shutdown command on the control channel |
| SiCoControl.NewBreak | sico/cpp/SiCo.h:224-225 | a new break has its id, type, threshold and relative flag and is neither acknowledged nor hit |
| SiCoControl.Turn | sico/cpp/SiCo.cc:653-681 | the loop body of `checkBreak` on one break gives `Turned` and sends `TurnReplies` |
| SiCoControl.TurnSpec | sico/cpp/SiCo.cc:653-681 | a turn keeps id, type and flag and acknowledges the break at a threshold no earlier than now (a relative one made absolute); the break is hit when it was or when its type is asked and its threshold reached; one ack message on the first turn and one hit message on the first hit |
| SiCoControl.TurnTwice | sico/cpp/SiCo.cc:653-681 | a second turn at the same time changes nothing and sends nothing |
| SiCoControl.Checked | sico/cpp/SiCo.cc:652-682 | `checkBreak` keeps the number of breaks |
| SiCoControl.CheckedAt | sico/cpp/SiCo.cc:652-682 | each break of the checked list is its own turn |
| SiCoControl.CheckedStep | sico/cpp/SiCo.cc:652-682 | checking one more break appends its turn |
| SiCoControl.CheckedTwice | sico/cpp/SiCo.cc:647-684 | checking twice at the same time is checking once, and the second check sends nothing |
| SiCoControl.CheckedAcked | sico/cpp/SiCo.cc:654-667 | after a check every break is acknowledged |
| SiCoControl.Hits | sico/cpp/SiCo.cc:669-681 | there is at most one hit message per break |
| SiCoControl.AckedReplies | sico/cpp/SiCo.cc:647-684 | on acknowledged breaks a check sends only hit messages |
| SiCoControl.AnyReachedStep | sico/cpp/SiCo.cc:669-670 | the result over one more break is the old result or that break's |
| SiCoControl.AnyReachedExists | sico/cpp/SiCo.cc:669-683 | the result is true exactly when some break of the asked type has reached its threshold |
| SiCoControl.RepliesStep | sico/cpp/SiCo.cc:652-682 | the replies over one more break are the old ones and that break's |
| SiCoControl.CheckStep | sico/cpp/SiCo.cc:652-682 | one pass of the loop of `checkBreak` extends the list, the replies and the result by one break |
| SiCoControl.ReplaceFirst | sico/cpp/SiCo.cc:652-682 | replacing the break at the cursor keeps those before and after it |
| SiCoControl.CheckAll | sico/cpp/SiCo.cc:647-684 | the loop of `checkBreak` leaves the checked list, sends the replies and says whether a break of the asked type is reached |
| SiCoControl.FirstWithId | sico/cpp/SiCo.cc:558-564 | the position of the first break with the id, or none when no break has it |
| SiCoControl.CStr | sico/cpp/SiCo.cc:525-528 | `std::string(data + pos)` reads up to the first NUL byte, and fails when there is none |
| SiCoControl.CStrAt | sico/cpp/SiCo.cc:525-528 | a NUL-terminated string at an offset is read back whole |
| SiCoControl.Signed32 | sico/cpp/SiCo.cc:530 | `int level = get32(...)` is the two's complement value of the 32 bits |
| SiCoControl.ConfigOfLogLevel | sico/cpp/SiCo.cc:522-536 | a loglevel message gives its scope and level |
| SiCoControl.LogLevelFields | sico/cpp/SiCo.cc:522-530 | the fields of a loglevel message lie at the offsets `setConfig` reads |
| SiCoControl.ScopeFields | sico/cpp/SiCo.cc:528-530 | the scope part of a loglevel message lies at the offsets `setConfig` reads |
| SiCoControl.LogLevelRoundTrip | sico/cpp/SiCo.cc:522-536 | `setConfig` reads back the scope and level of any loglevel message whose scope has no NUL |
| SiCoControl.SimControl.constructor | sico/cpp/SiCo.cc:508-520 | the control starts at time 0 with no breaks, channels, levels or messages |
| SiCoControl.SimControl.Push | sico/cpp/SiCo.cc:719-721 | `push` appends the message to what goes to the host and changes nothing else |
| SiCoControl.SimControl.GetQueue | sico/cpp/SiCo.cc:538-541 | `getQueue` returns the channel's queue, making an empty one the first time |
| SiCoControl.SimControl.Dispatch | sico/cpp/SiCo.cc:623-633 | the dispatcher appends a message to its channel's queue and leaves the other queues alone |
| SiCoControl.SimControl.ReportTime | sico/cpp/SiCo.cc:635-637 | `reportTime` sets the current time |
| SiCoControl.SimControl.Shutdown | sico/cpp/SiCo.cc:639-645 | `shutdown` sends the shutdown command and marks the shutdown |
| SiCoControl.SimControl.AddBreak | sico/cpp/SiCo.cc:549-553 | `addBreak` appends a new break |
| SiCoControl.SimControl.RemBreak | sico/cpp/SiCo.cc:555-568 | `remBreak` removes the first break with the id, and throws exactly when there is none |
| SiCoControl.SimControl.CheckBreak | sico/cpp/SiCo.cc:647-684 | `checkBreak` turns every break, sends the replies and says whether a break of the type is reached |
| SiCoControl.SimControl.SetConfig | sico/cpp/SiCo.cc:522-536 | `setConfig` sets the level of the scope for a loglevel message, ignores other names, and fails where the data runs out |
| SiCoControl.SimControl.CtrlProcess | sico/cpp/SiCo.cc:585-621 | `ctrlProcess` answers a tick with a tock, adds, removes or shuts down per the command, sets config, and ignores unknown commands |
| SiCoControl.AddBreakDecoded | sico/python/sico/comm.py:226-234 | the simulator decodes the host's addBreak request to the same id, type, time and relative flag |
| SiCoControl.Decoded | sico/cpp/SiCo.cc:877-879 | the changes a queue of messages holds, one per message |
| SiCoControl.DecodedAt | sico/cpp/SiCo.cc:877-879 | the k-th decoded change is read from the k-th message |
| SiCoControl.DecodedTail | sico/cpp/SiCo.cc:877-879 | decoding a suffix of the queue gives the suffix of the changes |
| SiCoControl.FirstAfter | sico/cpp/SiCo.cc:814 | the number of leading changes at or before the time |
| SiCoControl.FirstAfterSorted | sico/cpp/SiCo.cc:814 | on changes ordered by time, every change from there on is after the time |
| SiCoControl.Player.constructor | sico/cpp/SiCo.cc:787-796 | a player starts with the reset value at time 0 as both current and next |
| SiCoControl.Player.ParseMessage | sico/cpp/SiCo.cc:877-890 | `parseMessage` decodes the message into the next change and marks it ahead |
| SiCoControl.Player.UpdateNext | sico/cpp/SiCo.cc:798-806 | `updateNext` takes the next change off the queue when there is one |
| SiCoControl.Player.RollForward | sico/cpp/SiCo.cc:817-824 | one roll forward makes next current, fetches the following change and makes current synchronous when one came |
| SiCoControl.Player.Get | sico/cpp/SiCo.cc:808-855 | `get` rolls forward over every change at or before the time; it returns the last of them with the time of the following one, times out when a synchronous change has no successor, and stops on an asynchronous one |
| SiCoControl.Player.GetNext | sico/cpp/SiCo.cc:857-875 | `getNext` fetches a change when it holds none, times out only on a synchronous current change, and reports new exactly once, when the time has reached the change |
| SiCoControl.Recorder.constructor | sico/cpp/SiCo.cc:892-898 | a recorder starts with the reset value at time 0 |
| SiCoControl.Recorder.Put | sico/cpp/SiCo.cc:900-913 | `put` sends a change exactly when forced or the value differs from the last one sent, and always records the time |
| SiCoVpi.ToVpiChar | sico/vpi/SiCoVpi.cc:16-28 | 0, 1, Z and X print as themselves, the same as the simulator's character map, and every other value prints as X |
| SiCoVpi.FromVpiChar | sico/vpi/SiCoVpi.cc:30-44 | 0, 1, Z, X in either case give their value, and any other character gives uninitialized |
| SiCoVpi.CharRoundTrip | sico/vpi/SiCoVpi.cc:16-44 | the four VPI values survive printing and reading back |
| SiCoVpi.VpiCharRoundTrip | sico/vpi/SiCoVpi.cc:16-44 | a VPI character read and printed again comes back in upper case, and any other character comes back as X |
| SiCoVpi.BinStrBits | sico/vpi/SiCoVpi.cc:46-51 | one value per character |
| SiCoVpi.BinStrBitsAt | sico/vpi/SiCoVpi.cc:46-51 | value k comes from the k-th character from the right |
| SiCoVpi.BitsBinStr | sico/vpi/SiCoVpi.cc:53-58 | one character per value |
| SiCoVpi.BitsBinStrAt | sico/vpi/SiCoVpi.cc:53-58 | the j-th character prints the j-th value from the top |
| SiCoVpi.VpiBinStrToBits | sico/vpi/SiCoVpi.cc:46-51 | the loop of `vpiBinStrToBits` computes `BinStrBits` |
| SiCoVpi.BitsToVpiBinStr | sico/vpi/SiCoVpi.cc:53-58 | the loop of `bitsToVpiBinStr` computes `BitsBinStr` |
| SiCoVpi.BitsRoundTrip | sico/vpi/SiCoVpi.cc:46-58 | a vector of VPI values printed and read back is unchanged |
| SiCoVpi.BinStrRoundTrip | sico/vpi/SiCoVpi.cc:46-58 | a VPI string read and printed again is the same string in upper case |
| SiCoVpi.BinStrAgreesWithDisplay | sico/vpi/SiCoVpi.cc:53-58 | the VPI string shows a VPI value as the simulator's `bits::str` shows it |
| SiCoVpi.VpiToSimTime | sico/vpi/SiCoVpi.cc:60-63 | `vpiVal2simTime` reinterprets the 32-bit int as unsigned |
| SiCoVpi.SimTimeToVpi | sico/vpi/SiCoVpi.cc:65-68 | `simTime2vpiVal` keeps the low 32 bits as a signed int |
| SiCoVpi.AssembleTime | sico/vpi/SiCoVpi.cc:231-235 | `(hi << 32) - lo` assembles the time from two unsigned halves |
| SiCoVpi.VpiTimeRoundTrip | sico/vpi/SiCoVpi.cc:60-68 | reinterpreting as unsigned and back gives the int |
| SiCoVpi.SplitTimeRoundTrip | sico/vpi/SiCoVpi.cc:195-235 | a 64-bit time split into halves and assembled again is unchanged |
| SiCoVpi.AndOne | sico/vpi/SiCoVpi.cc:332-386 | `x & 1` is the low bit |
| SiCoVpi.FlagsAreBits | sico/vpi/SiCoVpi.cc:332-387 | both ways of reading a flag word give bit 0 and bit 1 |
| SiCoVpi.FlagsRoundTrip | sico/vpi/SiCoVpi.cc:332-387 | a flag word built from two booleans is read back as them |
| SiCoVpi.Tick | sico/vpi/SiCoVpi.cc:452-494 | `$SiCoVpiTick` reports the time, stops at a reached hold break, and otherwise checks stop breaks and then finish breaks, shutting down on a reached finish |
| SiCoVpi.Config | sico/vpi/SiCoVpi.cc:497-557 | `$SiCoVpiConfig` sets the tick period from a frequency, adds hold break 1, or sets a scope's level, and throws on any other name |
| SiCoVpi.RecorderPut | sico/vpi/SiCoVpi.cc:293-351 | `$SiCoVpiRecorderPut` reads the VPI string into a vector and gives it to the channel's recorder with sync and force taken from the flags |
| Comm.MessageToBytes | sico/python/sico/comm.py:57-67 | `toBytes` succeeds when the length fits four bytes, and the frame is as long as its own length field says |
| Comm.MessageFromBytes | sico/python/sico/comm.py:42-49 | `fromBytes` always gives data, and channel and data come from the raw bytes |
| Comm.MessageRoundTrip | sico/python/sico/comm.py:42-67 | decoding an encoded message gives its channel and its data (absent data as empty) |
| Comm.ReadFrame | sico/python/sico/comm.py:129-132 | reading one frame consumes part of the stream |
| Comm.ReadFrameOfMessage | sico/python/sico/comm.py:129-132 | reading an encoded message off a stream gives the message and leaves the rest |
| Comm.Command.Code | sico/python/sico/comm.py:163-172 | the command values are 0 to 8 |
| Comm.CommandOfCode | sico/python/sico/comm.py:177-178 | `Command(n)` exists exactly for 0 to 8 and has value n |
| Comm.CommandToBytes | sico/python/sico/comm.py:174-175 | a command is four big-endian bytes of its value |
| Comm.CommandFromBytes | sico/python/sico/comm.py:177-178 | a command read from the first four bytes has their value |
| Comm.CommandRoundTrip | sico/python/sico/comm.py:174-178 | every command survives encoding and decoding, whatever follows it |
| Comm.CommandBytesUnique | sico/python/sico/comm.py:174-178 | four bytes that decode to a command are that command's encoding |
| Comm.CodeInjective | sico/python/sico/comm.py:163-172 | different commands have different values |
| Comm.BreakTypeToBytes | sico/python/sico/comm.py:185-189 | a break kind is one byte that decodes back to it |
| Comm.BreakTypeFromBytes | sico/python/sico/comm.py:188-189 | a break kind read from the first byte has its value |
| Comm.AddBreakPayload | sico/python/sico/comm.py:226-234 | the addBreak payload exists when the uid fits four bytes and the time is encodable, and is 19 bytes |
| Comm.AddBreakFields | sico/python/sico/comm.py:226-234 | the payload reads back as the addBreak command, the uid, the time, the kind and the relative flag |
| Comm.RemBreakPayload | sico/python/sico/comm.py:236-241 | the remBreak payload is the command and the uid, when the uid fits four bytes |
| Comm.Break.constructor | sico/python/sico/comm.py:196-207 | a new break has its uid, request, kind and flag, and is neither acknowledged nor hit |
| Comm.Break.SetAck | sico/python/sico/comm.py:262-264 | `setAck` records the promised time and marks the acknowledgement |
| Comm.Break.SetHit | sico/python/sico/comm.py:266-268 | `setHit` records the stopping time and marks the hit |
| Comm.Wait.constructor | sico/python/sico/comm.py:271-282 | a new wait has its threshold and duration and is not hit |
| Comm.WaitBounds | sico/python/sico/comm.py:273-279 | a relative wait ends at now plus the time, an absolute one lasts the time minus now; both need times of now's domain |
| Comm.Remaining | sico/python/sico/comm.py:396-404 | `checkWaits` keeps at most the waits it had |
| Comm.RemainingMembers | sico/python/sico/comm.py:396-404 | it keeps exactly the waits whose threshold is after now |
| Comm.RemainingDefined | sico/python/sico/comm.py:396-404 | it fails exactly when some threshold cannot be compared with now |
| Comm.RemainingErr | sico/python/sico/comm.py:396-404 | a comparison that raises makes the whole check raise |
| Comm.Control.constructor | sico/python/sico/comm.py:298-343 | a new control is at time zero with no breaks or waits, and its first message is a tick |
| Comm.Control.GetQueue | sico/python/sico/comm.py:313-320 | `getQueue` returns the channel's queue, making an empty one the first time |
| Comm.Control.Dispatch | sico/python/sico/comm.py:329-337 | the dispatcher appends a message to its channel's queue |
| Comm.Control.Push | sico/python/sico/comm.py:323-326 | `ccPush` appends to the send queue |
| Comm.Control.CheckWaits | sico/python/sico/comm.py:396-404 | `checkWaits` marks every due wait hit at now, keeps the others pending and untouched |
| Comm.Control.TockStep | sico/python/sico/comm.py:363-367 | a tock sets now from its payload, checks the waits and sends the next tick |
| Comm.Control.AckOrHit | sico/python/sico/comm.py:368-375 | an acknowledgement or hit reaches the break of its uid with its time, raises for an unknown uid, and leaves the other breaks alone |
| Comm.Control.Process | sico/python/sico/comm.py:360-379 | `ccProcess` handles tock, ackBreak, hitBreak and shutdown and only logs any other command |
| Comm.Control.SetBreak | sico/python/sico/comm.py:406-412 | `setBreak` gives a new uid, defaults the time to zero and the flag to relative when no time is given, files the break and sends its addBreak request |
| Comm.Control.Release | sico/python/sico/comm.py:236-241 | `release` unfiles the break and sends remBreak, and raises KeyError for an unfiled one |
| Comm.Control.SetWait | sico/python/sico/comm.py:423-424 | `setWait` registers a new pending wait with the bounds `WaitBounds` gives |
| Comm.MaxTme | sico/python/sico/comm.py:459 | `max` of two comparable times is the later of them |
| Comm.Forwarded | sico/python/sico/comm.py:486-489 | a received change goes on synchronous with its own value and time |
| Comm.SampleAt | sico/python/sico/comm.py:497-501 | the sampler repeats an asynchronous sample one sample cycle before now, only when that is after the sample |
| Comm.Channel.constructor | sico/python/sico/comm.py:427-445 | a new channel is at time zero with no offset, frame or sample |
| Comm.Channel.FrameStart | sico/python/sico/comm.py:455-461 | FrameStart inside a frame fails; otherwise it sets a relative hold break at zero and the offset to the later of the promise plus the margin and the position |
| Comm.Channel.FrameEnd | sico/python/sico/comm.py:462-469 | FrameEnd outside a frame fails; otherwise it releases the hold break and clears the offset |
| Comm.Channel.Send | sico/python/sico/comm.py:472-478 | a change to the simulator is shifted by the offset in a frame, moves the position, and is sent as the channel's message |
| Comm.Channel.Recv | sico/python/sico/comm.py:484-491 | a message from the simulator becomes the sample and goes on as a synchronous change |
| Fn.Span | python/bilib/fn.py:72-74 | `Interval(b1, b2)` is ordered and has the two bounds as its ends |
| Fn.Sized | python/bilib/fn.py:69-71 | `Interval(b1, size=n)` starts at b1 and has length n |
| Fn.ClipIsIntersection | python/bilib/fn.py:86-93 | the max of the lows and min of the highs holds exactly the positions both intervals contain |
| Fn.Overlap | python/bilib/fn.py:85-90 | `overlap` as written is None exactly when the clipped low is not below the clipped high, and otherwise is the intersection |
| Fn.OverlapMissesSinglePosition | python/bilib/fn.py:88 | two equal one-position intervals share position 5, yet `overlap` as written gives None |
| Fn.OverlapIntended | python/bilib/fn.py:85-90 | the corrected `overlap` is None exactly when no position is shared, and otherwise the intersection |
| Fn.ShlOrOne | python/bilib/fn.py:98 | `(ret << 1) - 1` appends a one bit |
| Fn.MkMask | python/bilib/fn.py:95-99 | the loop of `mkmask` gives the ones of the interval; a negative length or a negative shift raises |
| Fn.MaskBits | python/bilib/fn.py:95-99 | bit i of the mask is set exactly when the interval contains i |
| Fn.BitSel | python/bilib/fn.py:104-105 | `bitsel` raises exactly where `mkmask` does |
| Fn.BitSelIsField | python/bilib/fn.py:104-105 | `bitsel` gives the bits of the interval shifted down to 0 |
| Fn.BitIsBit | python/bilib/fn.py:104-109 | every bit of an int, negative ones included, is 0 or 1 |
| Fn.BitMaskClears | python/bilib/fn.py:108-109 | `var ^ (var & mask)` clears the bits of the mask and keeps the others |
| Fn.Field | python/bilib/fn.py:118-121 | a field read is below 2^size |
| Fn.Packer.constructor | python/bilib/fn.py:112-114 | a packer starts on its value at position 0 |
| Fn.Packer.Add | python/bilib/fn.py:115-117 | `add` ORs the truncated data in at the position and moves the position on |
| Fn.Packer.Get | python/bilib/fn.py:118-121 | `get` reads the field at the position and moves the position on |
| Fn.DivModShift | python/bilib/fn.py:116-119 | adding a multiple of a higher power does not change a lower field |
| Fn.PlaceAbove | python/bilib/fn.py:116-119 | data placed above a smaller value is read back from there |
| Fn.FieldBelow | python/bilib/fn.py:116-119 | adding above a field leaves the field alone |
| Fn.AddedFields | python/bilib/fn.py:115-121 | after `add` the new field reads back as the truncated data and every earlier field is unchanged |
| Fn.PackerRoundTrip | python/bilib/fn.py:111-121 | two fields added and then got in the same order come back truncated to their sizes |
| Fn.UniqueNameCollides | python/bilib/fn.py:126-132 | as written, `uniqueName("2")`, `uniqueName("2")`, `uniqueName("22")` give `"2"`, `"22"`, `"22"` |
| Fn.Key | python/bilib/fn.py:126-127 | the corrected key is the base, or the base with `_` when it ends in a digit, and never ends in a digit |
| Fn.SuffixDigit | python/bilib/fn.py:132 | the appended count is digits |
| Fn.NameInjective | python/bilib/fn.py:132 | names made from keys that do not end in a digit never coincide |
| Fn.NameStore.constructor | python/bilib/fn.py:123 | the store starts empty |
| Fn.NameStore.UniqueName | python/bilib/fn.py:124-132 | the corrected `uniqueName` counts the key and returns a name different from every name handed out before |
| Registers.Pushes | biset/py/biset/register.py:129-131 | the pushes of `ccRelease` are at most one per address of the volatile cache |
| Registers.EmptyIsValid | biset/py/biset/register.py:25-29 | a new regfile, unlocked with empty caches, meets the cache invariant |
| Registers.SetVolatileValid | biset/py/biset/register.py:86-99 | storing into the volatile cache keeps its insertion order free of repeats and in step with its keys |
| Registers.ReadFetchesOnlyWhenUnknown | biset/py/biset/register.py:60-88 | `ccRead` sends at most one fetch, and does so exactly when the address is in neither cache and reads are allowed; it gives None exactly when the value is unknown and reads are not allowed; the volatile cache wins over the main cache |
| Registers.FetchedIsKept | biset/py/biset/register.py:76-88 | a fetched value is returned, kept in the main cache unless dontCache, kept in the volatile cache while locked, and then read again without a fetch |
| Registers.ReadKeepsValid | biset/py/biset/register.py:60-88 | `ccRead` keeps the cache invariant |
| Registers.WriteSameIsNoop | biset/py/biset/register.py:92-95 | writing the value already known changes nothing and sends nothing |
| Registers.LockedWriteNotPushed | biset/py/biset/register.py:97-105 | a write while locked goes to the volatile cache, is marked dirty and sends nothing |
| Registers.UnlockedWritePushed | biset/py/biset/register.py:100-107 | a changed write while unlocked is pushed at once and leaves the volatile cache and dirty set alone |
| Registers.WriteKeepsValid | biset/py/biset/register.py:91-107 | `ccWrite` keeps the cache invariant |
| Registers.WriteThenRead | biset/py/biset/register.py:60-107 | a value written while locked or with caching reads back without a fetch |
| Registers.HoldAndRelease | biset/py/biset/register.py:119-133 | `hold` raises exactly when locked and a second `hold` raises; `ccRelease` raises exactly when unlocked, and otherwise unlocks, clears the volatile cache and dirty set and keeps the main cache |
| Registers.LockKeepsValid | biset/py/biset/register.py:115-139 | `hold`, `ccRelease`, `invalidate` and `lockRead` keep the cache invariant |
| Registers.PushesAreDirty | biset/py/biset/register.py:129-131 | every push of `ccRelease` is of a dirty address with its volatile value |
| Registers.PushesCoverDirty | biset/py/biset/register.py:129-131 | every dirty address in the volatile cache is pushed |
| Registers.PushesDistinct | biset/py/biset/register.py:129-131 | no address is pushed twice |
| Registers.ReleasePushesDirty | biset/py/biset/register.py:124-133 | `ccRelease` appends to what was sent exactly one push per dirty address, with its volatile value |
| Registers.TwoLockedWritesPushLast | biset/py/biset/register.py:91-133 | two different writes to one address while locked send a single push of the last value at release |
| Registers.FirstLockedWrite | biset/py/biset/register.py:97-105 | the first changed write after `hold` puts the one address in the volatile cache and dirty set |
| Registers.SecondLockedWrite | biset/py/biset/register.py:97-105 | a second write to that address while locked replaces its volatile value and sends nothing |
| Registers.ReleaseOne | biset/py/biset/register.py:124-133 | release with one dirty address pushes exactly its value |
| Registers.OpaqueReadsReset | biset/py/biset/register.py:222-225 | an opaque register reads its reset value without a fetch unless the volatile cache holds it |
| Registers.VolatileBypassesCache | biset/py/biset/register.py:222-225 | a volatile register is fetched past the main cache and its reply is not cached |
| Registers.FieldWriteBits | biset/py/biset/register.py:264-267 | after a field write, the bits inside the interval come from the value and the others from the register |
| Registers.FieldReadBack | biset/py/biset/register.py:255-267 | reading a written field gives the value truncated to the field's width |
| Registers.FieldWriteThenRead | biset/py/biset/register.py:251-267 | `Field.ccWr` followed by `Field.ccRd` on a cached register gives the value truncated to the field's width |
| Registers.Regfile.constructor | biset/py/biset/register.py:20-29 | a regfile starts unlocked with empty caches and no registers |
| Registers.Regfile.Add | biset/py/biset/register.py:167-175 | `add` appends a register with its names, address, reset value, flags and mask (0 unless a non-zero mask is given) and returns its index |
| Registers.Regfile.AddField | biset/py/biset/register.py:208-249 | `Register.add` appends a readable and writable field with its interval and reset |
| Registers.Regfile.GetHandle | biset/py/biset/register.py:31-41 | `gethandle` finds the first register with the name, else the first field with the name, else None |
| Registers.Regfile.CcRead | biset/py/biset/register.py:60-88 | `ccRead` as a state change of the cache |
| Registers.Regfile.SetVol | biset/py/biset/register.py:99 | stores a value in the volatile cache |
| Registers.Regfile.CcWrite | biset/py/biset/register.py:91-107 | `ccWrite` as a state change of the cache |
| Registers.Regfile.CcPush | biset/py/biset/register.py:109-113 | `ccPush` sends one write request |
| Registers.Regfile.Invalidate | biset/py/biset/register.py:115-117 | `invalidate` drops the address from the main cache and nothing else |
| Registers.Regfile.Hold | biset/py/biset/register.py:119-122 | `hold` locks, or raises "already locked" and changes nothing |
| Registers.Regfile.LockRead | biset/py/biset/register.py:138-140 | `lockRead` forbids fetches and changes nothing else |
| Registers.Regfile.CcRelease | biset/py/biset/register.py:124-133 | `ccRelease` pushes the dirty values and unlocks, or raises "not locked" and changes nothing |
| Registers.Regfile.RegRd | biset/py/biset/register.py:222-225 | `Register.ccRd` reads through the cache with dontCache for volatile, invalid or opaque registers, and falls back to the reset value |
| Registers.Regfile.RegWr | biset/py/biset/register.py:230-231 | `Register.ccWr` writes through the cache |
| Registers.Regfile.FieldRd | biset/py/biset/register.py:251-255 | `Field.ccRd` raises on an unreadable field, on an unmaskable interval and on an unknown register value, and otherwise selects the field's bits |
| Registers.Regfile.FieldWr | biset/py/biset/register.py:260-267 | `Field.ccWr` raises on an unwritable field and otherwise replaces the field's bits of the register |
| BiSet.NewRequestFlags | biset/py/biset/__init__.py:20-31 | a request keeps its address and data; with no write flag it is a write exactly when data is given; a given flag is kept, and the warning is logged exactly when flag and data disagree |
| BiSet.NewRequestOfFields | biset/py/biset/__init__.py:20-31 | rebuilding a request from its own fields gives it back |
| BiSet.ToMemory | biset/py/biset/__init__.py:39-42 | `BiSetToMemory.convert` keeps address, direction and data, and its mask selects everything |
| BiSet.ToMemoryFullMask | biset/py/biset/__init__.py:39-42 | a consistent request converted for memory passes the bits converter with a mask field of all ones |
| BiSet.OffsetMovesAddress | biset/py/biset/__init__.py:53-56 | `BiSetOffset.convert` adds the offset to the address only; offsets compose by addition and 0 changes nothing; it is an address conversion by `+ offset` |
| BiSet.AddrConvertComposes | biset/py/biset/__init__.py:68-71 | `BiSetAddrConvert.convert` applies the function to the address only, and two conversions compose |
| BiSet.Derive | biset/py/biset/__init__.py:40-70 | a converted request is new, open, without result, and calls back to the original |
| BiSet.OffsetRoundTrip | biset/py/biset/__init__.py:53-59 | the offset request carries the moved address, and committing it commits the original with the same answer |
| Access.RequestWordFields | biset/py/biset/access.py:37-40 | the packed word fits 41 bits and holds the data (0 when absent) in bits 0-31, the address in bits 32-39 and the write flag in bit 40, each truncated |
| Access.SentWordReadsBack | biset/py/biset/access.py:42 | the 41-bit signal sent reads back as the packed word |
| Access.ReplyOfWord | biset/py/biset/access.py:45-51 | a pure reply of width w commits its value truncated to 32 bits |
| Access.ImpureReplyIsZero | biset/py/biset/access.py:44-48 | a reply that is not pure commits 0 |
| Access.SentWords | biset/py/biset/access.py:34-42 | one word is sent per request |
| Access.Results | biset/py/biset/access.py:43-51 | one result is committed per reply |
| Access.SentWordsAt | biset/py/biset/access.py:37-42 | the k-th word sent is the packing of the k-th request |
| Access.ResultsAt | biset/py/biset/access.py:43-51 | the k-th result is the value of the k-th reply |
| Access.Run | biset/py/biset/access.py:29-51 | the loop of `run` sends the packed words of the requests in order and commits the value of each reply; when the replies run out it stops after sending one more word |
| Access.Pack | biset/py/biset/access.py:37-42 | the packer steps give the sent word |
| Access.Unpack | biset/py/biset/access.py:44-51 | the reply steps give the committed value |
| Bimem.ByteMaskStep | memory/python/bimem.py:66-75 | one pass of the loop of `getByteMask` takes a 0x00 or 0xff byte off the mask and sets or leaves the matching bit of the byte mask |
| Bimem.AboveShift1 | memory/python/bimem.py:71 | placing a shifted-in bit and then the rest above it is the same as placing the rest one position higher |
| Bimem.NegativeMaskNeverZero | memory/python/bimem.py:66-74 | a negative mask shifted right by whole bytes stays negative, so the loop test `bitMask != 0` never fails |
| Bimem.MinusOneMaskLoops | memory/python/bimem.py:66-75 | the mask -1 stays -1 after every shift and its low byte is always 0xff, so `getByteMask` as written never returns on it |
| Bimem.GetByteMask | memory/python/bimem.py:62-76 | the corrected `getByteMask` raises on a negative mask and otherwise gives the byte mask, or raises on the first byte that is neither 0x00 nor 0xff |
| Bimem.ByteAtNext | memory/python/bimem.py:74 | byte i of the mask is byte i-1 after the shift by 8 |
| Bimem.ByteMaskBits | memory/python/bimem.py:66-76 | when `getByteMask` succeeds, every byte of the mask is 0x00 or 0xff and bit i of the result is set exactly when byte i is 0xff |
| Bimem.ByteMaskError | memory/python/bimem.py:72-73 | when `getByteMask` raises, some byte of the mask is neither 0x00 nor 0xff |
| Bimem.Convert | memory/python/bimem.py:105-122 | the packer steps of `MemoryToBitsReq.convert` give the specified signal |
| Bimem.ConvertCarriesWord | memory/python/bimem.py:105-122 | a convertible request becomes a signal of the packed width whose value is the packed word |
| Bimem.PackedFields | memory/python/bimem.py:106-119 | the packed word fits its width and holds the mask (all ones for True, 0 for False), then the data (0 for a read), then the address, then the write bit, each truncated to its width |
| Bimem.ThreeAt | memory/python/bimem.py:113-118 | three fields added above a word read back truncated, and the word below is kept |
| Bimem.AddedBounds | python/bilib/fn.py:115-117 | a field added at the top of a word fits the new width and reads back truncated |
| Bimem.KeepsField | python/bilib/fn.py:115-117 | adding at the top leaves every field below alone |
| Bimem.CommitBits | memory/python/bimem.py:124-129 | the memory request is committed with the reply's value when it is pure and None otherwise |
| Bimem.AddrCall | memory/python/bimem.py:135-139 | `MemoryAddrConvert` raises exactly when both an offset and a function are given, and with no offset uses the function |
| Bimem.OffsetConvert | memory/python/bimem.py:139-142 | with an offset the converted request is the original moved by the offset |
| Bimem.Forward | memory/python/bimem.py:146-147 | `commit` gives the original request the converted request's result |
| Bimem.Memory.constructor | memory/python/bimem.py:150-152 | a memory starts empty |
| Bimem.Memory.Serve | memory/python/bimem.py:159-172 | a write stores the data and answers 0; a write without data fails formatting its log line; a read answers the stored value, 0 when absent, and changes nothing |
| Bimem.Memory.Write | memory/python/bimem.py:174-175 | `write` stores the value at the address |
| Bimem.Memory.Read | memory/python/bimem.py:177-181 | `read` gives the stored value, or 0 for an address never written |
| Bimem.Memory.ReadHexDump | memory/python/bimem.py:183-197 | `readHexDump` succeeds exactly when the dump parses, and then leaves the memory the dump describes |
| Bimem.HexDumpPlaces | memory/python/bimem.py:189-197 | after `@a`, data lines land at `8a + offset` and eight addresses on, and a `z` line changes nothing |
| Bimem.Strip | memory/python/bimem.py:194 | the whitespace `int` ignores is only ever removed |
| Bimem.ParseInt16Examples | memory/python/bimem.py:190-194 | `int(s, 16)` accepts surrounding whitespace, a `0x` prefix, single underscores and a sign, and rejects doubled underscores and the empty string |
| LineCode.Disparity | coding/py/_8b10b/code.py:93-102 | the bit-counting loop of `disparity` gives ones minus zeros over the length, and fails its assertion unless that is -2, 0 or 2 |
| LineCode.SixCount | coding/py/_8b10b/code.py:93-99 | the ones of a six-bit table code are the ones of its value |
| LineCode.FourCount | coding/py/_8b10b/code.py:93-99 | the ones of a four-bit table code are the ones of its value |
| LineCode.D56Balanced | coding/py/_8b10b/code.py:13-46 | every 5b/6b data entry is a neutral code or a pair of codes of disparity -2 and +2, with the positive one chosen at RD -1 |
| LineCode.KFiveSixBalanced | coding/py/_8b10b/code.py:49-55 | every 5b/6b control entry is balanced the same way |
| LineCode.D34Balanced | coding/py/_8b10b/code.py:58-89 | every 3b/4b data entry and the A7 alternative are balanced |
| LineCode.K34Balanced | coding/py/_8b10b/code.py:71-80 | every 3b/4b control entry is balanced |
| LineCode.SixDisparity | coding/py/_8b10b/code.py:93-117 | `disparity(six, 6)` of a table code is its disparity |
| LineCode.FourDisparity | coding/py/_8b10b/code.py:93-120 | `disparity(four, 4)` of a table code is its disparity |
| LineCode.PickSix | coding/py/_8b10b/code.py:116-117 | the six-bit code chosen at a running disparity of -1 or 1 has disparity -2, 0 or 2 and brings the running disparity back to -1 or 1 |
| LineCode.PickFour | coding/py/_8b10b/code.py:118-120 | the four-bit code chosen likewise keeps the running disparity at -1 or 1 |
| LineCode.KWordFive | coding/py/_8b10b/code.py:49-91 | the low five bits of every allowed control word have a 5b/6b control entry |
| LineCode.LookupValid | coding/py/_8b10b/code.py:105-121 | a word in range, a disparity of -1 or 1 and an allowed control word find balanced entries in both tables |
| LineCode.LookupBalanced | coding/py/_8b10b/code.py:105-121 | entries found are balanced and the disparity is -1 or 1 |
| LineCode.ControlEntries | coding/py/_8b10b/code.py:49-80 | every control five and three has balanced entries |
| LineCode.DataFourBalanced | coding/py/_8b10b/code.py:112-115 | the data 3b/4b entry, with or without the A7 substitution, is balanced |
| LineCode.DataEntries | coding/py/_8b10b/code.py:108-115 | every data five and three has balanced entries |
| LineCode.AssembleHalves | coding/py/_8b10b/code.py:116-120 | the ten-bit symbol is the six-bit code in the high bits and the four-bit code in the low bits |
| LineCode.SymbolHalves | coding/py/_8b10b/code.py:120 | the six-bit code shifted up by four and or-ed with the four-bit code splits back into its halves |
| LineCode.AssembleCodesOf | coding/py/_8b10b/code.py:116-120 | the halves of the symbol are codes of the chosen entries |
| LineCode.EncodeValid | coding/py/_8b10b/code.py:105-127 | `enc8b10b` of a valid word and disparity succeeds with a symbol below 1024 and a new running disparity of -1 or 1, equal to the old one plus the disparities of both halves |
| LineCode.EntriesEncode | coding/py/_8b10b/code.py:116-127 | assembling balanced entries keeps the running disparity at -1 or 1 |
| LineCode.HalvesDisparity | coding/py/_8b10b/code.py:117-120 | the disparity of each half of the symbol is its code's disparity |
| LineCode.EncodeErrors | coding/py/_8b10b/code.py:106-121 | `enc8b10b` raises exactly for a word out of range, a disparity other than -1 or 1 or a control word not in `Ks`; the first two are assertion failures and the last is "bad K word" |
| LineCode.D34AvoidsA7 | coding/py/_8b10b/code.py:58-68 | no plain 3b/4b data code is 0111 or 1000 |
| LineCode.DataFourA7 | coding/py/_8b10b/code.py:82-115 | the data four-bit code is 0111 or 1000 exactly when the A7 substitution was taken |
| LineCode.DataA7 | coding/py/_8b10b/code.py:112-115 | a data symbol ends in 0111 or 1000 exactly when `(RD, five)` is in `DxA7` and three is 7 |
| LineCode.DataSymbolA7 | coding/py/_8b10b/code.py:112-120 | the same for the assembled data symbol |
| LineCode.EncOfLookup | coding/py/_8b10b/code.py:105-127 | the encoder is the table lookup followed by the assembly |
| LineCode.Enc8b10b | coding/py/_8b10b/code.py:105-127 | the method `enc8b10b` computes the specified symbol and disparity or error |
| LineCode.AssembleCodes | coding/py/_8b10b/code.py:116-127 | the assembly steps compute the specified symbol and disparity |
| LineCode.SixDisparityCall | coding/py/_8b10b/code.py:117 | the call `disparity(six, 6)` returns the code's disparity |
| LineCode.FourDisparityCall | coding/py/_8b10b/code.py:120 | the call `disparity(four, 4)` returns the code's disparity |
| LineCode.FindFirstFacts | coding/py/_8b10b/code.py:131-139 | the search gives the first word below 0x1ff that passes the test, or None when none does |
| LineCode.DecodeMeans | coding/py/_8b10b/code.py:130-139 | `dec8b10b` gives a word below 0x1ff that encodes to the symbol at RD -1 or 1, and None exactly when no such word exists |
| LineCode.DecodesEncoded | coding/py/_8b10b/code.py:130-139 | every symbol the encoder produces for a word below 0x1ff is decoded |
| LineCode.D56Inverts | coding/py/_8b10b/code.py:13-46 | every 5b/6b data code identifies its five bits; 001111 and 110000 are not data codes |
| LineCode.D56InvertsQuarter0 | coding/py/_8b10b/code.py:14-21 | the first quarter of the 5b/6b data table is invertible |
| LineCode.D56InvertsQuarter1 | coding/py/_8b10b/code.py:22-29 | the second quarter is invertible |
| LineCode.D56InvertsQuarter2 | coding/py/_8b10b/code.py:30-37 | the third quarter is invertible |
| LineCode.D56InvertsQuarter3 | coding/py/_8b10b/code.py:38-45 | the fourth quarter is invertible |
| LineCode.D34Inverts | coding/py/_8b10b/code.py:58-89 | every 3b/4b data code identifies its three bits, and 0111 and 1000 stand for 7 |
| LineCode.K34Inverts | coding/py/_8b10b/code.py:71-80 | every 3b/4b control entry is a pair whose codes identify its three bits at each disparity |
| LineCode.WordParts | coding/py/_8b10b/code.py:108-112 | a word is its five bits, its three bits and its K bit |
| LineCode.ControlParts | coding/py/_8b10b/code.py:91 | every allowed control word is K.28.y or one of K.23.7, K.27.7, K.29.7, K.30.7 |
| LineCode.PickSixInverts | coding/py/_8b10b/code.py:116 | the chosen six-bit code identifies the five bits |
| LineCode.PickFourInverts | coding/py/_8b10b/code.py:118 | the chosen four-bit code identifies the three bits |
| LineCode.UnsymbolHalves | coding/py/_8b10b/code.py:130-139 | the inverse of the symbol tables reads K.28 from 001111 or 110000, K.x.7 from 0111 or 1000 after a control five, and otherwise the data word |
| LineCode.HalvesUnsymbol | coding/py/_8b10b/code.py:112-120 | a data symbol's halves invert to its word |
| LineCode.SymbolUnsymbol | coding/py/_8b10b/code.py:120 | a symbol of two data codes inverts to the word |
| LineCode.PicksUnsymbol | coding/py/_8b10b/code.py:116-120 | the assembled data symbol inverts to the word at either disparity |
| LineCode.DataUnsymbol | coding/py/_8b10b/code.py:108-120 | every data word's symbol inverts to the word |
| LineCode.DataSixFacts | coding/py/_8b10b/code.py:13-46 | the chosen data six-bit code is balanced and identifies the five bits |
| LineCode.DataFourFacts | coding/py/_8b10b/code.py:58-118 | the chosen data four-bit code is balanced, is 0111 or 1000 exactly when substituted, and otherwise identifies the three bits |
| LineCode.D56InvertsAt | coding/py/_8b10b/code.py:13-46 | one 5b/6b data entry is invertible |
| LineCode.D34InvertsAt | coding/py/_8b10b/code.py:58-68 | one 3b/4b data entry is invertible and avoids 0111 and 1000 |
| LineCode.K28Unsymbol | coding/py/_8b10b/code.py:49-80 | a K.28.y symbol inverts to its word |
| LineCode.K7Unsymbol | coding/py/_8b10b/code.py:49-80 | a K.x.7 symbol of two codes inverts to its word |
| LineCode.K7Picks | coding/py/_8b10b/code.py:49-80 | the K.x.7 five bits share the data 5b/6b entry and their 3b/4b entry is 0111 or 1000 |
| LineCode.K7EntryUnsymbol | coding/py/_8b10b/code.py:116-120 | the assembled K.x.7 symbol inverts to its word |
| LineCode.ControlUnsymbol | coding/py/_8b10b/code.py:49-80 | every allowed control symbol inverts to its word |
| LineCode.UnsymbolOfEncoded | coding/py/_8b10b/code.py:105-127 | every symbol the encoder produces inverts to the encoded word |
| LineCode.DataWordUnsymbol | coding/py/_8b10b/code.py:105-127 | the same for data words |
| LineCode.A7Fives | coding/py/_8b10b/code.py:82-114 | the A7 substitution is taken only for three 7 and a five that is not a K.x.7 five |
| LineCode.ControlWordUnsymbol | coding/py/_8b10b/code.py:105-127 | the same for control words |
| LineCode.EncodeInjective | coding/py/_8b10b/code.py:105-127 | two words that encode to the same symbol, at any disparities, are equal |
| LineCode.DecodeOfEncode | coding/py/_8b10b/code.py:105-139 | `dec8b10b(enc8b10b(raw, RD)[1]) == raw` for every word and disparity the encoder accepts |
| LineCode.EncodedWord | coding/py/_8b10b/code.py:105-127 | an accepted word is below 0x1ff at a disparity of -1 or 1, where the search of `dec8b10b` finds it |
| LineCode.WordBelowFull | coding/py/_8b10b/code.py:91-110 | 0x1ff is never a valid word, so the search range `range(0x1ff)` misses none |
| LineCode.FoundIsEncoded | coding/py/_8b10b/code.py:130-139 | the word the search finds for a symbol is the word that was encoded |
| LineCode.Dec8b10b | coding/py/_8b10b/code.py:130-139 | the nested loops of `dec8b10b` compute the specified search |
| LineSignals.WordValue | coding/py/_8b10b/__init__.py:121-125 | a `D`/`K` word is nine pure bits whose value is five, then three, then the K bit, each truncated |
| LineSignals.WordNumber | coding/py/_8b10b/__init__.py:121-125 | for fields in range the word's value is five + 32 three + 256 k, its low byte is five + 32 three, and it is a control word exactly when k is 1 |
| LineSignals.DValue | coding/py/_8b10b/__init__.py:121-122 | `D(five, three)` is the data word five + 32 three |
| LineSignals.KValue | coding/py/_8b10b/__init__.py:124-125 | `K(five, three)` is the control word 256 + five + 32 three |
| LineSignals.DEncodes | coding/py/_8b10b/__init__.py:121-122 | every `D` word is accepted by the encoder |
| LineSignals.KEncodes | coding/py/_8b10b/__init__.py:124-125 | a `K` word is accepted exactly when its low byte is in `Ks` |
| LineSignals.SliceConcat | coding/py/_8b10b/__init__.py:107-122 | the two parts of a concatenation are sliced back out |
| LineSignals.SymbolDataOfDataSymbol | coding/py/_8b10b/__init__.py:114-119 | `symbolData(dataSymbol(d))` is d truncated to a byte |
| LineSignals.SymbolDataOfWords | coding/py/_8b10b/__init__.py:117-125 | `symbolData` reads a `D` word back and fails its assertion on a `K` word |
| LineSignals.SymbolDataOfWord | coding/py/_8b10b/__init__.py:117-125 | the same for a word built from its K bit |
| LineSignals.LowByte | coding/py/_8b10b/__init__.py:119-122 | five bits then three bits read back as five + 32 three |
| LineSignals.Encoder.constructor | coding/py/_8b10b/__init__.py:94-97 | the encoder starts at running disparity -1 |
| LineSignals.Encoder.Next | coding/py/_8b10b/__init__.py:99-109 | `Encode.next` encodes the high and then the low nine bits, threading the running disparity, and keeps the final disparity |
| LineSignals.EncodeKeepsDisparity | coding/py/_8b10b/__init__.py:96-104 | the running disparity stays -1 or 1 |
| LineSignals.EncodedDisparity | coding/py/_8b10b/code.py:105-127 | an accepted word gives a new disparity of -1 or 1 and a symbol below 1024 |
| LineSignals.EncodedRange | coding/py/_8b10b/code.py:106-110 | the encoder accepts only words below 0x1ff, disparities of -1 or 1 and control words in `Ks` |
| LineSignals.FullWordIsBadK | coding/py/_8b10b/code.py:109-110 | 0x1ff is a control word not in `Ks` |
| LineSignals.EncodePair | coding/py/_8b10b/__init__.py:102-107 | an encoded pair is 20 pure bits, the low symbol below the high symbol, and the new disparity is the second encode's |
| LineSignals.SymbolPairValue | coding/py/_8b10b/__init__.py:105-107 | two ten-bit symbols joined give their values in the low and high halves |
| LineSignals.DecodeNext | coding/py/_8b10b/__init__.py:79-88 | `Decode.next` decodes the high and low ten bits, writing nine X bits for a symbol it cannot decode |
| LineSignals.DecodeWords | coding/py/_8b10b/__init__.py:79-109 | decoding an encoded pair gives back the two nine-bit words at the same time |
| LineSignals.DecodePair | coding/py/_8b10b/__init__.py:79-107 | decoding two encoded symbols gives the two words |
| LineSignals.DecodeOfEncoded | coding/py/_8b10b/__init__.py:79-109 | `Decode.next` after `Encode.next` gives back the 18 bits that were encoded, at the same time |
| LineSignals.JoinWords | coding/py/_8b10b/__init__.py:86-104 | the two nine-bit halves joined are the original 18 bits |
| LineSignals.SerStep | coding/py/_8b10b/__init__.py:62-69 | one `Serialize.next` keeps the serializer's position within the word |
| LineSignals.Serializer.constructor | coding/py/_8b10b/__init__.py:55-59 | the serializer starts with no word, position 0 and clock 0 |
| LineSignals.Serializer.Next | coding/py/_8b10b/__init__.py:62-69 | `Serialize.next` steps down the position, fetching a new word at the end, advances the clock and emits one bit |
| LineSignals.SerSteps | coding/py/_8b10b/__init__.py:62-69 | n steps give n one-bit changes and keep the serializer valid |
| LineSignals.SerStepsWord | coding/py/_8b10b/__init__.py:64-69 | n steps from a word boundary emit bits 19 down to 20 - n of the fetched word at successive clock ticks |
| LineSignals.SerializeWord | coding/py/_8b10b/__init__.py:62-69 | twenty steps emit the whole word, most significant bit first, and return to a word boundary |
| LineSignals.CommaBits | coding/py/_8b10b/__init__.py:19-20 | the commas are 00111110 and 11000001 in the buffer's order |
| LineSignals.Deserializer.constructor | coding/py/_8b10b/__init__.py:22-26 | the deserializer starts empty, unaligned, with counter 0 |
| LineSignals.Deserializer.Parse | coding/py/_8b10b/__init__.py:38-52 | `_parse` shifts the bit into the buffer, aligns on a comma, and emits the buffer every 20 bits once aligned |
| LineSignals.Deserializer.Next | coding/py/_8b10b/__init__.py:28-33 | `Deserialize.next` parses until a word comes out, or gives None when the input runs out |
| LineSignals.ParseKeepsValid | coding/py/_8b10b/__init__.py:41-51 | the buffer stays at most 20 bits and the counter below 20, and an emitted word has 20 bits |
| LineSignals.ParseAligns | coding/py/_8b10b/__init__.py:41-46 | while unaligned no word is emitted, and alignment happens exactly when the newest eight bits are a comma, with the counter set to 8 |
| LineSignals.ParseAligned | coding/py/_8b10b/__init__.py:47-51 | once aligned the counter counts modulo 20 and the buffer is emitted exactly when it wraps |
| LineSignals.DesRunCount | coding/py/_8b10b/__init__.py:47-51 | after n aligned bits the counter is (c + n) mod 20 and (c + n) div 20 words came out |
| LineSignals.DesWordPrefix | coding/py/_8b10b/__init__.py:41-48 | the first k bits of a word sit at the front of the buffer, newest first |
| LineSignals.DesBitIn | coding/py/_8b10b/__init__.py:41 | shifting one more bit in extends that prefix |
| LineSignals.DesWord | coding/py/_8b10b/__init__.py:38-52 | twenty bits of a word from a word boundary emit exactly that word at the last bit's time |
| LineSignals.SerializeDeserialize | coding/py/_8b10b/__init__.py:28-69 | the serializer's twenty bits of a word, fed to an aligned deserializer at a word boundary, come out as that word at clock + 20 |
| Prng.Values | generator/PRNG.py:15-17 | the k-th value yielded is the (k+1)-th state of the shift register masked |
| Prng.Generate | generator/PRNG.py:12-21 | the loop of `prng`, run for a number of draws, yields the specified values, or raises when the mask shift is negative |
| Prng.StepMatchesSource | generator/PRNG.py:16 | the register step written with shifts, masks, or and xor is the 33-bit shift with feedback from bits 32 and 13 |
| Prng.StatesFollowSource | generator/PRNG.py:13-16 | each state is the source step of the one before, from the seed 0x14d5ba65 |
| Prng.ShiftedValue | generator/PRNG.py:16 | `(v << 1) & 0x1ffffffff` is the doubled value modulo 2^33, with a zero low bit |
| Prng.FeedbackValue | generator/PRNG.py:16 | the feedback bit is 1 exactly when bits 32 and 13 differ |
| Prng.StepBelow | generator/PRNG.py:16 | a step keeps the state below 2^33 |
| Prng.StateBelow | generator/PRNG.py:13-16 | every state is below 2^33 |
| Prng.MaskValue | generator/PRNG.py:17 | `0xffffffff >> (32 - bits)` is the low `bits` ones, and 0 for bits of 0 or less |
| Prng.LowMask | generator/PRNG.py:17 | shifting 32 ones right by 32 - bits leaves bits ones |
| Prng.YieldValue | generator/PRNG.py:17 | a yielded value is the state modulo 2^bits, and 0 for a negative bits |
| Prng.YieldsFacts | generator/PRNG.py:12-21 | `prng` raises exactly when bits exceeds 32 and a value is drawn; otherwise it yields len values (one when len is 0 or less) and each is the state truncated to bits |
| Prng.ZeroLengthYieldsOne | generator/PRNG.py:17-20 | as written, `prng(16, 0)` yields one value before it checks the length |
| Prng.GenerateIntended | generator/PRNG.py:12-21 | the corrected generator checks the length before it yields |
| Prng.IntendedCount | generator/PRNG.py:17-20 | the corrected generator yields exactly len values for every len from 0 up |
| TestErrors.HexDigits | python/bilib/errors.py:44-45 | the hexadecimal digits of `:#x` are never empty |
| TestErrors.HexDigitsValue | python/bilib/errors.py:44-45 | the digits read back as the number |
| TestErrors.HexRoundTrip | python/bilib/errors.py:44-45 | `:#x` formatting, sign included, reads back as the number |
| TestErrors.Kept | python/bilib/errors.py:28-35 | at most one message is kept per call, none for None |
| TestErrors.Announced | python/bilib/errors.py:30-36 | a message is printed with its tag exactly when it is kept |
| TestErrors.BitOrZeroIff | python/bilib/errors.py:27 | the or of the code and c is zero exactly when both are zero |
| TestErrors.ReportLines | python/bilib/errors.py:56-65 | the summary has the result line, the counters line, the messages under a heading when there are any, and ends with the good message exactly when the code is 0 |
| TestErrors.Errors.constructor | python/bilib/errors.py:17-23 | a new record keeps the two messages and starts with no messages, zero counters and code 0 |
| TestErrors.Errors.Fail | python/bilib/errors.py:26-31 | `fail` ors the code in, keeps and prints the message when given and counts one failure; the code is non-zero after exactly when it was before or c is |
| TestErrors.Errors.Success | python/bilib/errors.py:33-37 | `success` keeps and prints the message when given, counts one success and leaves the code |
| TestErrors.Errors.Check | python/bilib/errors.py:47-51 | `check` is a success with the good message when the condition holds and a failure with code 1 and the bad message otherwise |
| TestErrors.Errors.CheckVal | python/bilib/errors.py:39-40 | `checkVal` counts a success with "meas - desc" when equal and a failure with "meas is not expe - desc" otherwise |
| TestErrors.Errors.CheckValX | python/bilib/errors.py:42-45 | as written, `checkValX` raises whenever either value is None; a None measurement with an expected value still counts a failure first |
| TestErrors.Errors.CheckValXIntended | python/bilib/errors.py:42-45 | the corrected `checkValX` raises only when the expected value is None, and otherwise counts the comparison with hexadecimal messages |
| TestErrors.Errors.Report | python/bilib/errors.py:53-65 | `report` fails with "no tests passed" when nothing succeeded, then prints the summary, whose last line is the good message exactly when the code is 0 |
| TestErrors.Errors.PrintSummary | python/bilib/errors.py:56-65 | the printing part of `report` prints the summary and changes nothing else |
| TestErrors.Errors.Exit | python/bilib/errors.py:67-68 | `exit` ends with the error code as status |
| HeaderText.TrimStart | script/header.py:78 | the leading whitespace `strip()` removes is a prefix, and what remains starts with a non-blank |
| HeaderText.TrimEnd | script/header.py:78 | the trailing whitespace removed is a suffix, and what remains ends with a non-blank |
| HeaderText.StripStripped | script/header.py:78 | what `strip()` returns has no whitespace left at either end |
| HeaderText.StripKeeps | script/header.py:78 | `strip()` leaves a stripped text as it is |
| HeaderText.StripLine | script/header.py:78-124 | a stripped text written as a line and read back and stripped is the text itself |
| HeaderText.Spaces | script/header.py:124 | the padding is k blanks |
| HeaderText.LjustFits | script/header.py:124 | a tag no wider than the pad width is padded to exactly that width and stays at the front |
| HeaderText.YearRun | script/header.py:45 | the run of `[\d\-\s]` characters a text starts with, and no longer |
| HeaderText.NameEnd | script/header.py:45 | the run of `[\w\s]` characters from a position ends at the first other character |
| HeaderText.Search | script/header.py:45-80 | the greedy years group found is a candidate that lets the rest of the pattern match |
| HeaderText.MatchShape | script/header.py:45-83 | a match has a years group and an author group of their classes, and the text starts with the copyright line they make |
| HeaderText.BodyShape | script/header.py:45-83 | the same for the part of the pattern after its fixed head |
| HeaderText.StartsWithConcat | script/header.py:45 | a text starting with h and going on with x starts with h + x |
| HeaderText.Assemble | script/header.py:45 | the pieces a candidate splits the text into put back together are a prefix of it |
| HeaderText.MatchComplete | script/header.py:45-81 | every text that starts with a copyright line of years and author of their classes matches |
| HeaderText.BodyComplete | script/header.py:45-81 | the same for the part after the fixed head |
| HeaderText.YearRunCovers | script/header.py:45 | the run of year characters reaches past every prefix of year characters |
| HeaderText.NameRun | script/header.py:45 | the run of author characters ends where the first other character is |
| HeaderText.SearchFinds | script/header.py:45-80 | the greedy search finds a match whenever a candidate lies within its reach |
| HeaderText.CopyrightStripped | script/header.py:78-110 | a copyright line has no whitespace at either end, so `strip()` keeps it whole |
| Header.Blanks | script/header.py:112-113 | `[""] * nSpace` is nSpace empty lines, none for a negative count |
| Header.Zipped | script/header.py:123-124 | the zip writes, for each pair, the tag padded to the width followed by the header line |
| Header.ShebangLines | script/header.py:121-122 | the shebang line is written back exactly when one was seen |
| Header.ScanFile | script/header.py:69-93 | the loop of `processFile` over the lines computes the specified scan, raising "problem with tag" on a line without its tag |
| Header.ScanOne | script/header.py:70-93 | one pass of that loop computes the specified step |
| Header.ClassifyRest | script/header.py:79-92 | the branches on the stripped rest compute the specified classification |
| Header.ProcessFile | script/header.py:58-126 | `processFile` raises when the scan does, leaves a current header alone, and otherwise gives the rewritten lines |
| Header.BuildHeader | script/header.py:104-115 | the new header is built from the found or default copyright, the license, the padding blanks, the author tag and the author lines |
| Header.WriteFile | script/header.py:116-126 | the rewrite is the shebang, the tagged header lines and the lines after the old header |
| Header.WriteBlock | script/header.py:123-124 | the tagged header block is the zip of the tags and the header, as long as the shorter |
| Header.ScanStep | script/header.py:69-93 | the scan of one more line is one more step |
| Header.ScanPrefix | script/header.py:69-93 | the same stated for a prefix |
| Header.ScanSnoc | script/header.py:69-93 | the same stated for an appended line |
| Header.ScanSettled | script/header.py:70-77 | once the scan has raised or seen every tag, further lines change nothing |
| Header.Leading | script/header.py:72-74 | the count of leading shebang lines is at most the number of lines |
| Header.LeadingShebangs | script/header.py:72-74 | the leading lines counted all start with `#!` and the next does not |
| Header.ScanShape | script/header.py:69-93 | the scan raises exactly when some line in the tag region lacks its tag; otherwise it has consumed one tag per line after the shebangs |
| Header.ScanShapeStep | script/header.py:69-93 | the same shape is kept from one line to the next |
| Header.ShebangOrDone | script/header.py:70-74 | a shebang before the first tag, or any line after the last tag, keeps the shape and records the shebang |
| Header.TagStep | script/header.py:75-93 | a tag line keeps the shape, and raises exactly when it lacks its tag |
| Header.TaggedStep | script/header.py:75-93 | a step on a tag line raises exactly when the line lacks its tag, and otherwise moves to the next tag with the shebang kept |
| Header.TagStepOn | script/header.py:75-93 | the same, stated for a given step result |
| Header.TagsThrough | script/header.py:75-77 | a line that has its tag extends a tag region without a bad tag |
| Header.ClassifyKeeps | script/header.py:79-92 | classifying the rest touches neither the tag index nor the shebang |
| Header.LicenseEnd | script/header.py:47-84 | the license lines end at tag index 4 |
| Header.ScanSound | script/header.py:69-93 | the scan keeps its invariant: author lines are stripped, were seen after an author tag, and the found copyright groups are of their classes |
| Header.ScanLineSound | script/header.py:70-93 | one step keeps that invariant |
| Header.ClassifySound | script/header.py:79-93 | classifying a stripped rest keeps it |
| Header.SoundAppend | script/header.py:89-90 | appending an author line keeps it |
| Header.TaggedLine | script/header.py:75-93 | a tag line that is not a shebang is classified by its stripped rest after the pad width |
| Header.ClassifyCopyright | script/header.py:79-83 | on the first tag line a copyright match records author and years |
| Header.ClassifyLicense | script/header.py:84-86 | a license line equal to the expected text changes nothing |
| Header.ClassifyAuthorTag | script/header.py:87-88 | `Authors:` after the license records the author tag's index |
| Header.ClassifyBlank | script/header.py:91-92 | a blank line before the author tag changes nothing |
| Header.ClassifyAuthorLine | script/header.py:89-90 | any other line after the author tag is an author line |
| HeaderFinal.FixedTextsStripped | script/header.py:47-54 | the license lines, `Authors:` and the default author are stripped, and the default author is not `Authors:` |
| HeaderFinal.DefaultsMatch | script/header.py:45-56 | the default years and author are of the classes the copyright pattern asks for |
| HeaderFinal.HeaderLayout | script/header.py:104-115 | the new header has the copyright line, the license, blanks, the author tag and the author lines, and is as long as the tags or longer when the authors need it |
| HeaderFinal.CopyrightFits | script/header.py:106-110 | the copyright line written is stripped and matches the pattern |
| HeaderFinal.AuthorsFit | script/header.py:104-115 | every author line written is stripped and is not `Authors:` |
| HeaderFinal.PiecesLayout | script/header.py:110-115 | the header built from those pieces has the layout the scan expects |
| HeaderFinal.Parts | script/header.py:110-115 | where each piece of the concatenated header sits |
| HeaderFinal.ReadBack | script/header.py:78-124 | a tag line written with a stripped text starts with its tag and its rest after the pad width strips back to the text |
| HeaderFinal.LineStep | script/header.py:75-124 | the scan steps over one written tag line as over the header line it carries |
| HeaderFinal.LayoutStripped | script/header.py:110-115 | every line of the new header is stripped |
| HeaderFinal.ClassifyProgress | script/header.py:79-93 | classifying the header's lines in order reaches a valid state |
| HeaderFinal.WrittenAdvances | script/header.py:75-93 | a written tag line advances the scan |
| HeaderFinal.BlockScan | script/header.py:69-93 | the scan over a block of written tag lines reaches the state the header describes |
| HeaderFinal.ExtendScan | script/header.py:69-93 | one more written tag line extends that |
| HeaderFinal.StartScan | script/header.py:72-74 | a leading shebang is recorded before the first tag |
| HeaderFinal.RewriteIsFinal | script/header.py:58-126 | whenever `processFile` rewrites a file, running it again on the rewritten lines finds the header current |
| HeaderFinal.RewriteFramed | script/header.py:116-126 | the rewritten file is the shebang followed by the block of tagged header lines |
| HeaderFinal.RescanBlock | script/header.py:69-102 | a file framed that way is found current |
| HeaderFinal.RescanAdvancing | script/header.py:69-102 | a file whose tag region advances the scan line by line is found current |
| HeaderFinal.SettledCurrent | script/header.py:101-102 | a scan that reaches the last tag in a valid state returns without a rewrite |
| HeaderFinal.RewriteShape | script/header.py:116-126 | the rewrite is the shebang, the zip of the tags with the header, then the rest |
| HeaderFinal.Pieces | script/header.py:121-126 | where the parts of the written file sit |
| HeaderFinal.RescanValid | script/header.py:69-102 | scanning the written tag lines ends valid, past the last tag |
| HeaderFinal.WrittenBlock | script/header.py:123-124 | every line of the written block advances the scan |
| HeaderFinal.BlockLine | script/header.py:124 | one line of the written block advances the scan |
| HeaderFinal.WrittenLine | script/header.py:124 | a line written by the zip carries its tag and its header line |
| HeaderMain.LastDot | script/header.py:141-145 | the index of the last dot of a name, or -1 when there is none |
| HeaderMain.Suffix | script/header.py:141-148 | `Path.suffix` is empty or a dot and the characters after it, a tail of the name of at least two characters with no further dot |
| HeaderMain.SelectTag | script/header.py:135-153 | a path is skipped exactly when its top part is chaos or rrun or hidden, its name is RR, its suffix is .pyc, .md or .lock, or it is not a file; otherwise it gets slash tags for .v .sv .c .h .cc, hash tags for .py .nix, and is reported unknown for any other suffix |
| HeaderMain.OutcomeMeans | script/header.py:145-157 | only a selected file reaches `processFile`; it fails exactly when the file cannot be read or the scan raises, an unreadable file is never current or rewritten, and a rewritten file is a file with a known suffix |
| HeaderMain.Visit | script/header.py:134-157 | one pass of the loop of `main` gives the outcome the path calls for |
| HeaderMain.Walk | script/header.py:132-157 | `main` visits every path the walk yields, in order, each with its outcome |
| HeaderMain.TagsFit | script/header.py:17-43 | both tag styles have at least six lines, none wider than the pad, and do not start with `#!` |
| HeaderMain.SecondRunCurrent | script/header.py:132-157 | running `main` again over a file it rewrote finds the header current |
| HeaderMain.LogNames | script/header.py:152-157 | `main` prints one line for each path that was not detected, failed or needed an update |
| BigEndian.Encode | sico/python/sico/comm.py:62-63 | `to_bytes(n, 'big')` gives n bytes |
| BigEndian.Decode | sico/python/sico/comm.py:45 | `int.from_bytes(s, 'big')` is below 256 to the length of s |
| BigEndian.ToBytes | sico/python/sico/comm.py:62-63 | `to_bytes(n, 'big')` raises exactly when the value is negative or too large, and otherwise gives n bytes that read back as the value |
| BigEndian.DecodeEncode | sico/cpp/SiCo.cc:75 | reading back a big-endian store gives the value modulo 256 to the width, which is what a narrowing store keeps |
| BigEndian.EncodeDecode | sico/python/sico/comm.py:45-63 | bytes read as a number and written back at the same width are the same bytes |
| BigEndian.EncodeInjective | sico/python/sico/comm.py:62-63 | two values in range with the same bytes are equal |
| BigEndian.DecodeLeadingZeros | sico/python/sico/comm.py:130 | leading zero bytes do not change the number read |
| Decimal.DigitChar | choc/python/choc/types.py:86-98 | a decimal digit prints as a digit character |
| Decimal.NatToStr | choc/python/choc/types.py:86-100 | `str(n)` is digits without a leading zero, unless n is 0 |
| Decimal.ZeroPad3 | choc/python/choc/types.py:98 | `f"{n:03}"` is at least three digits |
| Decimal.Zeros | choc/python/choc/types.py:98 | the padding zeros are k digits |
| Decimal.NatToStrValue | choc/python/choc/types.py:71-86 | `int(str(n)) == n` |
| Decimal.LeadingZeros | choc/python/choc/types.py:79-98 | leading zeros do not change the value read |
| Decimal.ZerosValue | choc/python/choc/types.py:98 | zeros read as 0 |
| Decimal.ZeroPad3Value | choc/python/choc/types.py:79-98 | `int(f"{n:03}") == n` |
| Decimal.NatToStrShort | choc/python/choc/types.py:98 | below 1000, `f"{n:03}"` is exactly three digits |

## Left out

- Threads, sockets, mutexes and condition variables: each method of a shared object is one atomic step. The blocking wait of the VPI tick is not modelled: `SicoVpi.Tick` returns `held` where the simulator thread would wait on the condition variable.
- Waits on a message queue and the serial timeout of the deserialiser are modelled as the end of the input sequence.
- Socket reconnects of `Connection`, the choc daemon, `Task`, the watchdog and `cancelall` are not modelled; messages arrive as input sequences and leave as output sequences.
- Text payloads of sico messages are UTF-8 strings in the source; `comm.dfy` carries them as bytes, so encoding and decoding errors of UTF-8 are not modelled.
- C++ exceptions and undefined behaviour (a read past the end of a buffer) are modelled as `Err` results.
- Character classes are ASCII or Latin-1 in the model, where Python's `str.isdigit`, `str.isspace` and `str.strip` use Unicode (`HeaderText` whitespace, `Decimal` digits, the digit tests of `Time` and `Fn`, and `Bimem` line stripping).
- `Break.unqiue` (sico/python/sico/comm.py:195-199) is a class attribute shared by every `Control`; the model keeps the counter in each `Comm.Control` object.
- Items.ClockRun: takes the start time as a parameter that must be valid, where the source defaults a missing start to `Tme.zero(period)`; a clock without a stop time is bounded by the `limit` parameter.
- `atexit` registration, logging, `print`, `dkStr` and other diagnostics are left out; the header tool's printing is the function `HeaderMain.Log` over the outcomes.
- Files are lists of lines. A file the header tool cannot open or read (missing, unreadable, not UTF-8) is a `HeaderMain.Found` whose lines are None, and `processFile` on it fails. The recursive glob of the working directory is the input sequence of `HeaderMain.Found` records.
- HeaderMain.Walk: a failed write of a rewritten file, which prints the update line and then the error line, is not modelled; a rewrite always succeeds.
- Pipe.Connect: the peer `b` is one `Item`. A `Socket` as `b` (which offers only itself and forges nothing) and a `Parallel` as `b`, which `a >> (b | c)` builds (the sockets of its items in order, and a forge by the first item that forges), are not modelled. The sender side `a` is any sequence of sockets.
- HeaderMain.Suffix: models `Path.suffix` for names whose parts are plain text; other `pathlib` normalisations are not modelled.
- The header tag literals are written as concatenations of shorter string literals; their contents are those of the source.
- Bimem.ReadHexDump: on a malformed line the source first stores the data under the key `None` and then raises; the model returns the error without that entry.
- Memory `read` and `write` of `MemoryPort` and `MemoryAccess` are thin senders of requests through `choc.call`; the requests they build are modelled, the calls are not. The `mask != False` assertion is not modelled.
- The context managers of `Regfile`, `release`, `dump` and the synchronous `rd`/`wr` wrappers are left out; the cached read and write operations are modelled.
- Run-time type checks (`etype`, `ctype`, `mkList`) are left out: the Dafny types enforce them.
- Floating-point multiplication of times, `toFreq` and `L9.toInt(force=True)` are left out: floating point is not modelled.
- The 8b/10b serialiser and deserialiser use a `SiCo.types` module with `Bits` and `Change` that is not part of this model. They are modelled on the `Bits` and `Change` of choc.types, read the way the 8b/10b code uses them; against choc.types as written, `Change(..., width=1)`, `Bits(chg)` and `chg[10:20]` would raise.
- LineCode.D34: the source stores the alternate 3b/4b code for the key under index 0xf of the data table; the model keeps it as the separate entry `DA7`.
- LineCode.Enc8b10b: the error for a bad control word is the message without its hexadecimal suffix.
- A bitwise `|` of disjoint fields is written as an addition.
- LineSignals.DecodeWords: an input shorter than 18 bits comes back with its words filled out to nine bits each, as the slicing of the source does.
- SiCoDpi, the memory store, `hash`, biset's sico transport and the test suites are not part of this model.

## Findings

| source | as written | input that shows it | evidently intended | confidence | as-written member | corrected member |
|---|---|---|---|---|---|---|
| sico/cpp/SiCo.cc:56-59 | `getSimTime` reads the cycle flag at `index + 9`, one byte past where `putSimTime` stores it | a cycle time followed by a zero byte (5 cycles, then 0) reads back as a period | the flag is read where it is written, and every time reads back as written | not executed | SiCo.GetSimTimeAsWrittenMisreads | SiCo.SimTimeRoundTrip |
| choc/python/choc/types.py:151 | multiplying a time by a time calls `int` on a `Tme`, which has no `__int__` | a period multiplied by a cycle count | the period times the count, as a period | not executed | Time.MulTmeAlwaysRaises | Time.MulTmeIntended |
| choc/python/choc/items.py:432-442 | when `_align` returns early because the position sits on the first change, `ccRead` reads the time of the second change, which is still None | a probe holding one change, read at that change's time | the value of that change | not executed | Items.ReadAtFirstChange | Items.Read |
| python/bilib/fn.py:88 | the test `low >= hi` treats the inclusive upper bound as exclusive, so a one-position interval overlaps nothing, not even itself | `Sized(5,1)` with itself gives no overlap | `None` exactly when the ranges share no position | not executed | Fn.OverlapMissesSinglePosition | Fn.OverlapIntended |
| python/bilib/fn.py:126 | a base made of digits only is not given the `_` separator before its counter, so a numbered name can equal a later base | the names "2", "2", "22" come out as "2", "22", "22" | every name given out is different | not executed | Fn.UniqueNameCollides | Fn.NameInjective |
| generator/PRNG.py:17-20 | the generator yields before it checks the count | a request for zero values yields one | exactly the requested number of values | not executed | Prng.ZeroLengthYieldsOne | Prng.IntendedCount |
| python/bilib/errors.py:43-45 | a missing measurement is recorded as a failure, then the message formats it with `#x` and raises | `checkValX(None, 5, d)` | the failure is recorded and the check returns false | not executed | TestErrors.Errors.CheckValX | TestErrors.Errors.CheckValXIntended |
| memory/python/bimem.py:66-74 | the mask loop shifts until the mask is zero, which a negative mask never reaches | mask -1 loops forever, since `-1 >> 8 == -1` | the loop ends for every mask, and a negative mask is refused | not executed | Bimem.MinusOneMaskLoops | Bimem.GetByteMask |
