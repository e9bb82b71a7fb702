# ZigbeeGate gateway core in Dafny

ZigbeeGate is the firmware of a water-metering gateway. It talks over a
serial link to a ZigBee radio module, collects packets from water meters
and valve controllers, and offers a line console for configuration.

This project models the gateway's core and proves properties of the model:

- **Packet codec and device directory** (`data.c`): module `DataLink` and module `Directory`.
  - packet sizes by tag byte;
  - the inbound checks: length, then CRC, then sender address;
  - construction of outbound packets;
  - the 10-slot directory, with upsert, lookup, 120-tick aging and clearing.
- **Radio protocol engine** (`zigbee.c`): modules `ZigBee`, `ZBFrames` and `Counters`, with `ZigBeeProps` for the proofs. The engine is a class over the module's statics:
  - the byte collector;
  - the system-answer matcher;
  - the answer/packet result cache;
  - the frame splitter;
  - the unicast and broadcast frame wrappers;
  - the transaction skeleton;
  - the module-command table;
  - parameter-block reconciliation;
  - the result counters.

  `ZigBeeProps` states one transaction as a function on a snapshot of the statics and proves what an exchange does.
- **Calendar arithmetic** (`xtime.c`): module `Calendar`.
  - conversion between the RTC second counter and a date, with the 1900 bias;
  - the weekday formula;
  - the `TimeSet`/`DateSet` mask validators.
- **Console and settings code**:
  - the tokenizer (`parse.c`): module `Parse`;
  - hex decoding, version text, hex dump, command dispatch and the argument rules of the `valve` and `config` commands (`command.c`): modules `HexText` and `Command`;
  - the dot padding of listings (`message.c`): module `Message`;
  - the flash-held settings record with its CRC-or-defaults load and its save error codes (`config.c`): module `Settings`;
  - the baud table and the console line editor (`uart.c`): module `Uart`.
- **Shared helpers**:
  - `Bytes`: fixed-width integers, byte orders, byte swap;
  - `CText`: C strings, `atoi`, decimal digits.

Fixed-width C integers are subset types (`byte`, `u16`, `u32`). Wrap-around and truncation are written out as `%`.

The CRC16 routine is not part of this model. It is a function parameter `crc: seq<byte> -> u16`, so every property holds for any CRC.

Byte order:
- Multi-byte fields of the packed structures are stored in host order, which is little-endian.
- Only the inbound `addr_send` trailer is big-endian; the code recovers it with `__REVSH`.
- The PAN ID and addresses of the radio module's parameter block are also big-endian.

`NET_STATUS_SOFT` is 1 at zigbee.c:31. So both send paths test the network through the parameter block's network state, not through a status pin.

Enumerations are one byte wide, so the packed sizes are:

| kind | size |
|---|---|
| STATE | 24 |
| DATA, WLOG | 34 |
| VALVE, LEAKS | 10 |
| SYNC_DTIME | 10 |
| REQ_* | 8 |
| CTRL_VALVE | 9 |
| ACK | 7 |

No packet the gateway builds is one it accepts (`DataLink.OutboundNotInbound`). So the codec has no build-then-check round trip. The checks are instead proved against `DataLink.Seal`, the packet a device builds, in both directions.

Waiting for an answer is an input to the model: the frame that arrived, or none for a time-out. The same goes for the module's RUN line, the result of starting a UART transmission, the flash and HAL statuses, and the RTC counter.

## Model

| member | source | states |
|---|---|---|
| Bytes.Inc32Wraps | FirmWare/Source/zigbee.c:377 | a 32-bit counter increment is +1 modulo 2^32 |
| CText.AtoiDigits2 | FirmWare/Source/xtime.c:277-279 | `atoi` reads back two printed digits followed by a non-digit |
| CText.AtoiDigits4 | FirmWare/Source/xtime.c:326-328 | `atoi` reads back four printed digits |
| Counters.ZBErrDesc | FirmWare/Source/zigbee.c:988-993 | a description for each of the 12 result codes, none past the table |
| Counters.ErrDescDistinct | FirmWare/Source/zigbee.c:87-101 | every description names exactly one result code |
| Counters.CountOf | FirmWare/Source/zigbee.c:1061-1068 | code 0 asks for the number of counters, any other code for its counter, 0 past the table |
| Counters.CountAfterBump | FirmWare/Source/zigbee.c:1048-1052 | one increment raises exactly one counter by one modulo 2^32 and leaves the others |
| Counters.ErrorCounters.ErrorClr | FirmWare/Source/zigbee.c:1037-1041 | every counter and both totals are zero afterwards |
| Counters.ErrorCounters.ZBIncError | FirmWare/Source/zigbee.c:1048-1052 | the counter of the code goes up by one modulo 2^32, and a code past the table changes nothing |
| Counters.ErrorCounters.ZBErrCnt | FirmWare/Source/zigbee.c:1061-1068 | returns CountOf the current counters |
| Directory.IndexOfUnique | FirmWare/Source/data.c:367-372 | the slot found is the first one holding the number |
| Directory.AddrOf | FirmWare/Source/data.c:362-374 | the address of the first slot with the number; 0 when absent, and 0 for number 0 without a search |
| Directory.LookupFindsSlot | FirmWare/Source/data.c:362-374 | with unique numbers the lookup returns the address of the one slot holding the number |
| Directory.UpsertKeepsSize | FirmWare/Source/data.c:330-353 | an upsert keeps the table at its 10 slots |
| Directory.UpsertKeepsUnique | FirmWare/Source/data.c:330-353 | an upsert never lets a non-zero number occupy two slots |
| Directory.UpsertThenLookup | FirmWare/Source/data.c:330-353 | after an upsert that succeeded, a lookup of the number gives the new address |
| Directory.UpsertLeavesOthers | FirmWare/Source/data.c:330-353 | an upsert changes no other device's lookup |
| Directory.UpsertFull | FirmWare/Source/data.c:343-352 | ERROR exactly when every slot holds some other number, and then the table is unchanged |
| Directory.UpsertKeepsAgesBounded | FirmWare/Source/data.c:334-351 | every age stays within 120, and unless the table was full the upserted device is present with the new address and age 0 |
| Directory.AgedAllKeepsInvariants | FirmWare/Source/data.c:380-393 | the corrected tick bounds every age by 120 and keeps numbers unique |
| Directory.AgedPrefixKeepsInvariants | FirmWare/Source/data.c:380-393 | the tick as written keeps the same invariants |
| Directory.AgedAllOnSchedule | FirmWare/Source/data.c:380-393 | with the corrected tick, a device not refreshed is still present after n ticks, aged by n, while its age stays within 120 |
| Directory.EvictedWithin | FirmWare/Source/data.c:386-390 | with the corrected tick, every device not refreshed is evicted exactly when its age would pass 120 |
| Directory.AsWrittenNeverEvicts | FirmWare/Source/data.c:384 | a concrete table in which the tick as written never evicts device 7 |
| Directory.CorrectedEvictsFromHole | FirmWare/Source/data.c:384 | the corrected tick evicts device 7 from that table |
| Directory.DevList.DevGetAddr | FirmWare/Source/data.c:362-374 | DevGetAddr returns AddrOf the slots and changes nothing |
| Directory.DevList.CheckDevList | FirmWare/Source/data.c:330-353 | the table becomes the upsert of the number, and the result is SUCCESS unless the table is full for it |
| Directory.DevList.DevListUpd | FirmWare/Source/data.c:380-393 | the table becomes the as-written aging, which stops at the first free slot |
| Directory.DevList.DevListUpdAll | FirmWare/Source/data.c:380-393 | the corrected tick: every occupied slot ages |
| Directory.DevList.DevListClr | FirmWare/Source/data.c:398-407 | every slot is free, with address and age zero |
| DataLink.PackOf | FirmWare/Source/data.c:73 | the kind a tag byte names, none past the enumeration |
| DataLink.CheckPack1 | FirmWare/Source/data.c:69-83 | the size of the inbound kind the first byte names, 0 for every other byte, outbound kinds included |
| DataLink.CheckPack1Sizes | FirmWare/Source/data.c:69-83 | STATE 24, DATA and WLOG 34, VALVE and LEAKS 10, every tag from 6 up 0 |
| DataLink.Verify | FirmWare/Source/data.c:94-185 | accepts exactly a length-matched inbound packet whose CRC and big-endian sender address check |
| DataLink.SealAccepted | FirmWare/Source/data.c:94-185 | a packet a device builds is accepted with its kind, number and address, whatever follows it |
| DataLink.AcceptedIsSealed | FirmWare/Source/data.c:94-185 | conversely, every accepted packet is some device's sealed packet |
| DataLink.SwapReadsBigEndian | FirmWare/Source/data.c:112 | the swap of a little-endian read is the big-endian read |
| DataLink.WithCrc | FirmWare/Source/data.c:208-210 | the last two bytes are the CRC of all the preceding bytes, little-endian |
| DataLink.CreatePack | FirmWare/Source/data.c:200-279 | addressed kinds give no packet for number 0 or an unknown device, and otherwise a CRC-closed packet and the resolved address; SYNC_DTIME skips the lookup and sets the address to 0; an inbound kind gives no packet |
| DataLink.CreatedFields | FirmWare/Source/data.c:215-262 | the number, address, log count (REQ_DATA only), valve commands and sizes a device reads from an addressed packet |
| DataLink.CreatedSync | FirmWare/Source/data.c:203-212 | a synchronisation packet carries the clock reading after its tag |
| DataLink.OutboundNotInbound | FirmWare/Source/data.c:69-83 | no packet CreatePack builds passes CheckPack1 |
| DataLink.CheckPack2 | FirmWare/Source/data.c:94-185 | an unmatched packet changes nothing; a CRC or an address failure counts once in its counter; acceptance upserts the directory; the ack target is cleared on every call and set only for WLOG |
| ZBFrames.ScanIff | FirmWare/Source/zigbee.c:185-194 | a two-byte frame is matched to an answer exactly when it is that answer's code, and to none otherwise |
| ZBFrames.SysAnswer | FirmWare/Source/zigbee.c:784-816 | only a frame of byte length 2 is matched against the table; a 46-byte frame with head 0xFB is a config report; anything else is no answer |
| ZBFrames.CfgRoundTrip | FirmWare/Source/zigbee.c:810-812 | the parameter block read from its 45 bytes is the block written |
| ZBFrames.CfgBytesRoundTrip | FirmWare/Source/zigbee.c:810-812 | the bytes written from a block read are the bytes read |
| ZBFrames.CfgAfter | FirmWare/Source/zigbee.c:805-813 | JOIN_NET and BLD_NET set the network state, NO_NET clears it, and a config report replaces the whole block |
| ZBFrames.ResolveIff | FirmWare/Source/zigbee.c:747-774 | OK exactly when a command completed or a packet was identified and no error was reported; EXEC exactly on a module error |
| ZBFrames.CmdIndexFound | FirmWare/Source/zigbee.c:175-184 | exactly the five module commands have a table row |
| ZBFrames.PanMatchIff | FirmWare/Source/zigbee.c:841-843 | the PAN test holds exactly when the block stores the setting high byte first |
| ZBFrames.ReconciledAgrees | FirmWare/Source/zigbee.c:836-858 | after the copies the block agrees with the settings in all four fields, and nothing else changed |
| ZBFrames.ReconciledNoChange | FirmWare/Source/zigbee.c:836-858 | a block that already agrees is left as it is |
| ZBFrames.PreparedAgrees | FirmWare/Source/zigbee.c:549-589 | a block SetCfg prepares passes the reconciliation tests |
| ZBFrames.UnicastFrame | FirmWare/Source/zigbee.c:624-638 | FC, len+4, mode 03 02, destination high byte first, then the payload: len+6 bytes |
| ZBFrames.BroadcastFrame | FirmWare/Source/zigbee.c:677-687 | FC, len+2, mode 01 01, then the payload: len+4 bytes |
| ZBFrames.Pack1GuardOverrun | FirmWare/Source/zigbee.c:606 | a 75-byte payload passes the length check, yet its frame needs 81 bytes of the 80-byte buffer |
| ZigBee.CollectedKeepsTail | FirmWare/Source/zigbee.c:458-471 | the buffer holds the last n mod 513 bytes of a run: it fills to 512 and the 513th byte empties it |
| ZigBee.RunLengthStep | FirmWare/Source/zigbee.c:461-464 | each byte moves the length on by one modulo 513, or back to 0 |
| ZigBee.Chunk | FirmWare/Source/zigbee.c:376 | the packet size at an offset, 0 when the tag is no inbound kind or the block is too short |
| ZigBee.Radio.ClearRecv | FirmWare/Source/zigbee.c:877-881 | the index and all 512 buffer bytes are zero |
| ZigBee.Radio.RecvByte | FirmWare/Source/zigbee.c:458-471 | a byte is appended while the index is below 512; otherwise the buffer is cleared and the byte dropped |
| ZigBee.Radio.RecvCheck | FirmWare/Source/zigbee.c:445-453 | after a pause, a non-empty buffer is handed over as one block and cleared; an empty one signals nothing |
| ZigBee.Radio.MatchAnswer | FirmWare/Source/zigbee.c:796-803 | the first table row whose code equals the two-byte block |
| ZigBee.Radio.CheckAnswer | FirmWare/Source/zigbee.c:784-816 | returns SysAnswer of the block and updates the parameter block as CfgAfter states |
| ZigBee.Radio.GetAnswer | FirmWare/Source/zigbee.c:747-774 | returns Resolve of the cache and resets both cached values |
| ZigBee.Radio.SplitPackets | FirmWare/Source/zigbee.c:371-415 | the state becomes Split of the block: one count per pass, CheckPack2 on each sized packet, the last packet's kind cached, and a stop at a packet that cannot be sized |
| ZigBee.Radio.ProcessFrame | FirmWare/Source/zigbee.c:354-432 | a system answer is cached, otherwise the block is split; a waiting transaction is released and its flag cleared |
| ZigBee.Radio.SendData | FirmWare/Source/zigbee.c:706-738 | clears cache and buffer; DATA above 128 bytes before sending; OK without waiting for timeout 0; TIMEOUT with the flag left set, or GetAnswer after an answer |
| ZigBee.Radio.ZBSendPack1 | FirmWare/Source/zigbee.c:599-643 | DATA, then RUN, then NETWORK checks, each failure counted; then sends UnicastFrame and counts the result |
| ZigBee.Radio.ZBSendPack | FirmWare/Source/zigbee.c:652-694 | the same checks, then sends BroadcastFrame; a time-out is returned as OK and not counted |
| ZigBee.Radio.Command | FirmWare/Source/zigbee.c:529-541 | sends the four code bytes of the command's row and waits that row's time |
| ZigBee.Radio.SetCfg | FirmWare/Source/zigbee.c:549-589 | the parameter block becomes Prepared from the settings, and SetCfgFrame of it is sent |
| ZigBee.Radio.FindCommand | FirmWare/Source/zigbee.c:508-514 | the first table row for the command, or the table size |
| ZigBee.Radio.ZBControl | FirmWare/Source/zigbee.c:487-520 | RUN when the module is off; DEV_RESET is OK without the table; a command without a row is CMD; otherwise that row's exchange |
| ZigBee.Radio.Reconcile | FirmWare/Source/zigbee.c:836-858 | the block becomes Reconciled, and the result says whether any of the four fields differed |
| ZigBee.Radio.ZBCheckConfig | FirmWare/Source/zigbee.c:822-872 | the state becomes CheckConfig, with the RUN line read anew at each exchange: stop after a failed read, write and re-read only when a field differed |
| ZigBee.Radio.SendWlogAck | FirmWare/Source/zigbee.c:338-347 | acknowledges the log packet to the device that sent it, without waiting |
| ZigBeeProps.SplitWire | FirmWare/Source/zigbee.c:371-415 | the split of concatenated sealed packets accepts each of them in order |
| ZigBeeProps.ReceivedFacts | FirmWare/Source/zigbee.c:371-415 | receiving packets counts each once, upserts each sender and caches the last kind |
| ZigBeeProps.UpsertedAllKeepsUnique | FirmWare/Source/data.c:330-353 | upserting every sender keeps device numbers unique |
| ZigBeeProps.SplitCounts | FirmWare/Source/zigbee.c:377 | the packet total rises once per pass of the loop, modulo 2^32 |
| ZigBeeProps.SplitLastWins | FirmWare/Source/zigbee.c:379 | the cached kind is the verdict on the last pass's packet |
| ZigBeeProps.SplitUnderflow | FirmWare/Source/zigbee.c:414 | a 10-byte block with a STATE tag makes the 16-bit remainder wrap to 65522 |
| ZigBeeProps.SplitTruncatedStops | FirmWare/Source/zigbee.c:371-415 | with the corrected sizing the same block takes one pass and stops |
| ZigBeeProps.RemainderAgrees | FirmWare/Source/zigbee.c:414 | with the corrected sizing the 16-bit subtraction never wraps |
| ZigBeeProps.ProcessedSystemAnswer | FirmWare/Source/zigbee.c:365 | a system answer is cached without splitting, and the waiter is released |
| ZigBeeProps.ProcessedAnswerCode | FirmWare/Source/zigbee.c:784-816 | a block yields a table answer exactly when it is that answer's code |
| ZigBeeProps.ProcessedConfigReport | FirmWare/Source/zigbee.c:810-812 | a config report replaces the parameter block with its 45 bytes and leaves the directory |
| ZigBeeProps.WireNoAnswer | FirmWare/Source/zigbee.c:784-816 | a block of sealed packets is never taken for a system answer |
| ZigBeeProps.ProcessedWire | FirmWare/Source/zigbee.c:354-432 | a block of sealed packets is received packet by packet |
| ZigBeeProps.TransactClean | FirmWare/Source/zigbee.c:711-712 | a transaction forgets earlier cached results and received bytes |
| ZigBeeProps.TransactSends | FirmWare/Source/zigbee.c:714-724 | a frame is sent exactly when it fits and the UART takes it; without a wait the counters are untouched |
| ZigBeeProps.TransactResult | FirmWare/Source/zigbee.c:706-738 | DATA exactly for an oversized frame, OK for timeout 0, TIMEOUT exactly when no answer comes |
| ZigBeeProps.TransactAnswer | FirmWare/Source/zigbee.c:747-774 | EXEC exactly for a module error, OK exactly for a completed command, UNDEF for a network notice |
| ZigBeeProps.TransactWire | FirmWare/Source/zigbee.c:706-738 | an answer made of sealed packets gives OK and upserts each sender |
| ZigBeeProps.UnicastChecks | FirmWare/Source/zigbee.c:599-643 | DATA exactly above 74 bytes, then RUN, then NETWORK, in that order |
| ZigBeeProps.UnicastSends | FirmWare/Source/zigbee.c:599-643 | the frame sent is UnicastFrame of the payload and address |
| ZigBeeProps.UnicastCounted | FirmWare/Source/zigbee.c:638-639 | the result is counted once |
| ZigBeeProps.BroadcastChecks | FirmWare/Source/zigbee.c:652-694 | never TIMEOUT, and DATA, RUN and NETWORK in that order |
| ZigBeeProps.BroadcastSends | FirmWare/Source/zigbee.c:652-694 | the frame sent is BroadcastFrame of the payload |
| ZigBeeProps.BroadcastSilentOk | FirmWare/Source/zigbee.c:688-690 | a broadcast that hears nothing is OK and counts nothing |
| ZigBeeProps.ControlNoExchange | FirmWare/Source/zigbee.c:487-520 | RUN when off, OK for reset, CMD for a command without a row, each with nothing sent |
| ZigBeeProps.ControlCommandSends | FirmWare/Source/zigbee.c:529-541 | a table command sends its four code bytes |
| ZigBeeProps.ControlCommandTimeout | FirmWare/Source/zigbee.c:529-541 | a table command times out exactly when no answer comes, and the time-out is counted |
| ZigBeeProps.ControlSaveSends | FirmWare/Source/zigbee.c:549-589 | SAVE sends FD 2E FE, the 45 bytes of the prepared block, and FF |
| ZigBeeProps.PreparedAfterReconciled | FirmWare/Source/zigbee.c:549-589 | preparing the reconciled block is preparing the original |
| ZigBeeProps.CheckConfigReadFails | FirmWare/Source/zigbee.c:830-834 | a failed read ends the check after the read |
| ZigBeeProps.CheckConfigKeeps | FirmWare/Source/zigbee.c:859-862 | a block that agrees is neither written nor re-read |
| ZigBeeProps.CheckConfigWrites | FirmWare/Source/zigbee.c:859-869 | a differing block is reconciled, written with SAVE and read back with READ while the module runs at both exchanges |
| ZigBeeProps.CheckConfigStopped | FirmWare/Source/zigbee.c:859-869 | a module that stops after the read gets neither the SAVE nor the second READ; only the reconciled block remains |
| ZigBeeProps.WlogAckConsumes | FirmWare/Source/zigbee.c:338-347 | the log event is consumed, and the ack is for the logged device's address |
| ZigBeeProps.WlogAckUnknown | FirmWare/Source/zigbee.c:341-342 | an ack for an unknown device sends nothing |
| ZigBeeProps.WlogAckSends | FirmWare/Source/zigbee.c:346 | an ack for a known device is sent as a unicast ACK without waiting |
| Calendar.MonTabMatchesYearLen | FirmWare/Source/xtime.c:35-41 | a year counted from 1900 uses the leap table exactly when it has 366 days, a non-zero multiple of 4 |
| Calendar.YearDayInjective | FirmWare/Source/xtime.c:106-130 | a day count splits into year, month and day in one way only |
| Calendar.TotalInjective | FirmWare/Source/xtime.c:138-155 | valid dates are told apart by their second count |
| Calendar.DtimeToSecOfValid | FirmWare/Source/xtime.c:138-155 | DtimeToSec of a valid date is its second count since 1900 minus the bias, in 32 bits |
| Calendar.SplitSeconds | FirmWare/Source/xtime.c:112-129 | the year and month searches give a valid date with that exact second count |
| Calendar.SecToDtime | FirmWare/Source/xtime.c:106-130 | a valid date (hour, minute, second, month and day in range) whose count is the biased input; DtimeToSec gives the input back; the only such date |
| Calendar.UnbiasWrapped | FirmWare/Source/xtime.c:111 | removing the bias in 32 bits undoes adding it in 32 bits |
| Calendar.GetTimeDate | FirmWare/Source/xtime.c:59-67 | corrected: every counter decodes to a valid date 1970..2106 that DtimeToSec maps back to the counter, and the only one |
| Calendar.SameCounterSameDate | FirmWare/Source/xtime.c:138-155 | two dates in the counter's range with the same counter are equal |
| Calendar.CounterWrapAfter2036 | FirmWare/Source/xtime.c:111 | the counter of 01.01.2050 decodes to 25.11.1913 as written |
| Calendar.DayOfWeek | FirmWare/Source/xtime.c:166-174 | a weekday in 0..6 |
| Calendar.DayOfWeekMatchesCalendar | FirmWare/Source/xtime.c:166-174 | for 1901..2099 the formula agrees with the converters' calendar, with 0 as Sunday |
| Calendar.ScoreFull | FirmWare/Source/xtime.c:266-271 | the full score exactly when every mask position is satisfied |
| Calendar.MaskScore | FirmWare/Source/xtime.c:266-271 | the loop returns Score of the text against the mask |
| Calendar.TimeSet | FirmWare/Source/xtime.c:253-298 | 8 or 5 characters only; score 8 sets h:m:s exactly when h < 24 and m, s < 60; score 5 sets h:m with seconds 0 exactly when h < 24 and m < 60; any other score is refused; the date is kept |
| Calendar.DateSet | FirmWare/Source/xtime.c:308-335 | all 10 positions must score, then day 1..31, month 1..12 and year at most 2100, with no check against the month's length |
| Calendar.TimeTextAccepted | FirmWare/Source/xtime.c:253-298 | every well-formed HH:MM:SS passes the check and reads back as typed |
| Calendar.DateTextAccepted | FirmWare/Source/xtime.c:308-335 | every well-formed DD.MM.YYYY passes the check and reads back as typed |
| Calendar.GarbledLongTimeTakenAsShort | FirmWare/Source/xtime.c:264-288 | "12:34xyz" scores 5 against the long mask and reads as hour 12 and minute 34 |
| Calendar.GarbledLongTimeSet | FirmWare/Source/xtime.c:286-296 | TimeSet on "12:34xyz" writes 12:34:00, so a garbled long text is taken as HH:MM |
| Parse.StrippedLine | FirmWare/Source/parse.c:36-39 | the line is cut at its first control code and holds none |
| Parse.TokensShape | FirmWare/Source/parse.c:43-50 | no token is empty and none holds a space |
| Parse.TokensSplit | FirmWare/Source/parse.c:43-50 | a space keeps the tokens on either side apart |
| Parse.TokensSkip | FirmWare/Source/parse.c:43-50 | runs of spaces produce no token |
| Parse.StrTokTokens | FirmWare/Source/parse.c:43-50 | repeated strtok_r calls yield exactly the tokens of the line |
| Parse.Kept | FirmWare/Source/parse.c:23-24 | the first ten tokens, each clipped to the 34 characters a row holds |
| Parse.ParamRowAsWritten | FirmWare/Source/parse.c:83 | the bound as written lets index 10 through |
| Parse.ParamRowPastTable | FirmWare/Source/parse.c:83 | index 10 addresses the row past the table |
| Parse.ParseOverrunAsWritten | FirmWare/Source/parse.c:44-50 | a 21-character line has 11 tokens, one more than the table's rows |
| Parse.LongTokenAsWritten | FirmWare/Source/parse.c:44-50 | a 36-character word is one token, longer than a row |
| Parse.Parser.ParseCommand | FirmWare/Source/parse.c:29-53 | the line is cut at its first control code; the table is cleared, then holds the first ten clipped tokens; their number is returned |
| Parse.Parser.ClearTable | FirmWare/Source/parse.c:41 | every row is all NUL |
| Parse.Parser.GetParamCnt | FirmWare/Source/parse.c:60-63 | the token count of the last line |
| Parse.Parser.GetParamVal | FirmWare/Source/parse.c:81-86 | no parameter from index 10 on; below it the C string of that row |
| HexText.HexToBin | FirmWare/Source/command.c:872-888 | the value of a hex digit of either case, an error for any other character |
| HexText.HexCharRoundTrip | FirmWare/Source/command.c:872-888 | a printed digit reads back as its value |
| HexText.HexToBinRoundTrip | FirmWare/Source/command.c:872-888 | a digit read and printed again comes back in upper case |
| HexText.PairsMeaning | FirmWare/Source/command.c:839-862 | every byte written is its digit pair; success exactly when all digits are valid, otherwise a stop at the bad pair |
| HexText.HexDecodedOk | FirmWare/Source/command.c:839-862 | success exactly for an even number of valid digits that fits, the bytes then being all the pairs |
| HexText.StrHexToBin | FirmWare/Source/command.c:839-862 | odd length or too many pairs is refused before writing; otherwise the pairs are written up to the first bad one; later bytes keep their old values |
| HexText.HexEncodeRoundTrip | FirmWare/Source/command.c:839-862 | bytes printed with %02X decode back to the same bytes |
| HexText.HexDecodedEncode | FirmWare/Source/command.c:839-862 | the decoder accepts anything that printer writes and that fits |
| HexText.HexNumValue | FirmWare/Source/command.c:809-811 | a printed address reads back as the address |
| HexText.HexNumWidth | FirmWare/Source/command.c:809-811 | exactly w digits for a value below 16^w |
| HexText.CellOf | FirmWare/Source/command.c:813-819 | the cell of byte k starts with the byte's two digits |
| HexText.HexDumpLayout | FirmWare/Source/command.c:802-828 | the dump line's length, and for every byte its two digits, which decode back to the byte, and its character ('.' outside 32..126) |
| HexText.DumpHeadWidth | FirmWare/Source/command.c:809-811 | the address part has 4 or 8 digits, so the line has 76 or 80 characters |
| HexText.Put | FirmWare/Source/command.c:810 | the text is written at the position with a NUL after it, and the new position is returned |
| HexText.DumpCells | FirmWare/Source/command.c:813-819 | the first loop appends the hex column |
| HexText.DumpShows | FirmWare/Source/command.c:821-826 | the second loop appends the character column |
| HexText.DataHexDump | FirmWare/Source/command.c:802-828 | the buffer holds the dump line as a C string and is unchanged after its NUL |
| Message.DotCountWraps | FirmWare/Source/message.c:50 | the dot count is the difference reduced modulo 256 |
| Message.AddDotNoPadding | FirmWare/Source/message.c:45-47 | a first-line label that reaches the column gets one space, returns 0 and ends there |
| Message.AddDotPadding | FirmWare/Source/message.c:48-54 | otherwise a space, the dots and a space follow the label, the return counts them, and no NUL is written |
| Message.AddDotAligns | FirmWare/Source/message.c:48-54 | the last space lands on column prev_len + aligment, and the returned offset is just past it |
| Message.WriteDots | FirmWare/Source/message.c:51-52 | the loop writes the dots and nothing else |
| Message.AddDot | FirmWare/Source/message.c:41-55 | the buffer and the result are AddDotResult of the old buffer |
| Settings.ConfigRoundTrip | FirmWare/Source/config.c:82 | the record read back from its bytes is the record written |
| Settings.BytesRoundTrip | FirmWare/Source/config.c:104-105 | the bytes written from a record read are the bytes read |
| Settings.Loaded | FirmWare/Source/config.c:67-84 | the stored record when the CRC over the 126 data bytes matches, the defaults otherwise |
| Settings.SaveThenLoad | FirmWare/Source/config.c:97-142 | a block a save writes loads back as the saved settings |
| Settings.SaveCode | FirmWare/Source/config.c:110-141 | the first failing step's mask OR'd with its status, or 0 when every step succeeds |
| Settings.SaveCodeText | FirmWare/Source/config.c:164-181 | the text of a save result names the failing step and its status, so a failed save is never reported as a success |
| Settings.ResetNamesEmpty | FirmWare/Source/config.c:199-209 | no reset source is named exactly when bits 0..5 are all clear |
| Settings.ResetNamesLowBits | FirmWare/Source/config.c:199-209 | bits above bit 5 do not change the description |
| Settings.ConfigStore.ConfigInit | FirmWare/Source/config.c:50-88 | the settings and the read status become Loaded of the flash page; the reset flags are kept from bit 26 on |
| Settings.ConfigStore.ConfigSave | FirmWare/Source/config.c:97-142 | the RAM image `flash_data` becomes Image of the settings; the result is SaveCode of the unlock, erase, per-word program and lock statuses, naming the first step that failed |
| Settings.ConfigStore.FlashReadStat | FirmWare/Source/config.c:149-156 | "OK" after a load from flash, "DEFAULT" after defaults |
| Settings.ConfigStore.ResetSrc | FirmWare/Source/config.c:189-192 | the kept reset flags, truncated to a byte |
| Settings.ConfigError | FirmWare/Source/config.c:164-181 | code 0 is the first status name; otherwise the highest set step bit's name followed by the status name |
| Settings.ResetSrcDesc | FirmWare/Source/config.c:199-209 | the names of the set bits 0..5 in ascending order |
| Uart.UartGetSpeed | FirmWare/Source/uart.c:255-260 | the table rate of an ID, 0 past the table |
| Uart.SpeedsDistinct | FirmWare/Source/uart.c:40-54 | no two IDs share a rate |
| Uart.CheckBaudRate | FirmWare/Source/uart.c:271-283 | succeeds exactly for a table rate, with its ID; otherwise the ID is the 600 baud default |
| Uart.SpeedRoundTrip | FirmWare/Source/uart.c:255-283 | for every table ID, CheckBaudRate's search on UartGetSpeed of the ID finds that same ID |
| Uart.Wrapped | FirmWare/Source/uart.c:147-150 | a full line is discarded before the next character is stored |
| Uart.Erased | FirmWare/Source/uart.c:151-157 | a backspace on a non-empty line removes its last character and is not stored |
| Uart.Stored | FirmWare/Source/uart.c:158-160 | any other character is stored at the index; an ESC marks where recall may start |
| Uart.Recalled | FirmWare/Source/uart.c:161-170 | on ESC [ A the line becomes the history line, with the index at its end |
| Uart.Completed | FirmWare/Source/uart.c:172-181 | a carriage return is dropped, the line is copied to history and the ESC mark is reset |
| Uart.TypedLine | FirmWare/Source/uart.c:145-183 | a printable line of at most 39 characters and a return completes as that line and becomes history |
| Uart.UpArrowRecalls | FirmWare/Source/uart.c:161-170 | in a fresh line ESC [ A brings back the history line |
| Uart.RecallLast | FirmWare/Source/uart.c:145-183 | after a command, ESC [ A brings that command back |
| Uart.LineEditor.RecvChar | FirmWare/Source/uart.c:145-183 | the editor state becomes Step of the old state and the character, with its completion flag |
| Uart.LineEditor.Resume | FirmWare/Source/uart.c:172-181 | the line is empty again after the command ran |
| Command.LookupFrom | FirmWare/Source/command.c:200-207 | the first entry at or after i whose name equals the word up to case |
| Command.Lookup | FirmWare/Source/command.c:193-212 | the first matching entry, none exactly when no name matches |
| Command.LookupUnique | FirmWare/Source/command.c:139-155 | at most one entry matches any word, so the first match is the only one |
| Command.LookupOwnName | FirmWare/Source/command.c:139-155 | each name, typed in any case, selects its own entry |
| Command.ExecCommand | FirmWare/Source/command.c:193-212 | the line is parsed, and the entry selected by the first word and the parameter count are returned |
| Command.ModeOfIff | FirmWare/Source/command.c:454-459 | OPEN exactly for "opn", CLOSE exactly for "cls", in any case, NOTHING otherwise |
| Command.ValveRequestRules | FirmWare/Source/command.c:451-502 | four words with cold or hot drive that circuit only; two words ask for status; anything else is refused |
| Command.OnlyKeyword | FirmWare/Source/command.c:277-346 | the keywords differ even up to case, so at most one setting is selected |
| Command.SetSpeed | FirmWare/Source/command.c:277-285 | only a table rate changes the speed |
| Command.SetPanId | FirmWare/Source/command.c:287-297 | a value up to FFFE is stored byte-swapped; others are an error and change nothing |
| Command.SetNetKey | FirmWare/Source/command.c:299-305 | the decoded bytes over the stale key buffer become the key |
| Command.SetDevNumb | FirmWare/Source/command.c:307-317 | any value but 0 becomes the device number |
| Command.SetGroup | FirmWare/Source/command.c:319-325 | a group up to 99 after 8-bit truncation is stored; a larger one is ignored without an error |
| Command.SetGate | FirmWare/Source/command.c:327-337 | corrected: the address is checked after the swap |
| Command.ConfigByKeyword | FirmWare/Source/command.c:263-377 | each keyword selects its own setting; `config save` saves; anything else changes nothing |
| Command.ConfigNoKeyword | FirmWare/Source/command.c:263-377 | a line whose second word is no keyword leaves the settings alone |
| Command.Hex16Four | FirmWare/Source/command.c:288-293 | four typed digits reach the union as the value, byte-swapped |
| Command.PanIdTyped | FirmWare/Source/command.c:287-297 | `config panid XXXX` stores the typed value; only FFFF is refused |
| Command.DevNumbTyped | FirmWare/Source/command.c:307-317 | `config devnumb XXXX` stores the typed value; only 0 is refused |
| Command.GateTyped | FirmWare/Source/command.c:327-337 | corrected: stored as typed exactly when at most FFF8 |
| Command.GateCheckAsWritten | FirmWare/Source/command.c:329-330 | as written FFF9 is accepted and F9FF refused |
| Command.ShortHexUsesStale | FirmWare/Source/command.c:288-293 | two digits fill the high byte and keep the stale low byte |
| Command.NetKeyRoundTrip | FirmWare/Source/command.c:299-305 | the 32 digits of a key store that key |
| Command.CmndConfig | FirmWare/Source/command.c:263-377 | the settings and flags become ConfigAfter of the old settings and the words |
| Command.VersionParts | FirmWare/Source/command.c:757-767 | v = major*10^7 + minor*10^4 + rev, with minor < 1000 and rev < 10000 |
| Command.VersionUnique | FirmWare/Source/command.c:757-767 | that decomposition is the only one with those bounds |
| Command.DecTextValue | FirmWare/Source/command.c:765 | the printed digits read back as the number |
| Command.VersionTextFits | FirmWare/Source/command.c:765 | the version text fits its 32-character buffer |
| Command.TaskStateDesc | FirmWare/Source/command.c:775-790 | a name for each thread state, and none for any other code |
| Command.TaskStateDescInjective | FirmWare/Source/command.c:47-54 | different states get different names |

## Left out

- RTOS concurrency is not modelled:
  - threads, the mutex, the semaphores, the receive queue, event flags, timers and delays;
  - one transaction runs at a time, and the frame that arrived (or none, for a time-out) is an input.
- Hardware is not modelled:
  - the TIM6 restart, UART DMA, the reset and readiness GPIO lines, the RTC registers, flash access, and the RCC reset flags;
  - their outcomes are inputs: the RUN line, the transmit start result, the HAL statuses, the counter value and the reset status word.
- The CRC16 implementation: crc16.h is not part of this model, so the CRC is a function parameter.
- The heap: `pvPortMalloc`/`vPortFree` are left out. A block is handed over by value, and an allocation failure is not modelled.
- Console rendering is left out:
  - `ZBConfig`, `ZBErrCntDesc`, `OutData`, `DeviceList`, `DateTimeStr`;
  - the help, stat, task, version and flash commands; `water.c`, `valve.c`;
  - `UartSendStr`, `TaskUart`;
  - the `DEBUG_ZIGBEE` code.
- `version.h` and `verdata.h` are not part of this model. Neither are `led.c` and `events.c`.
- Parse.Parser.ParseCommand: the NUL characters that `strtok_r` writes into the command line are not modelled.
- `GetParamList` is not a member, because it returns the table itself and that table is the parser's `paramList` field.
- Uart: uart.h is not part of this model, so baud-rate IDs are taken to equal the table's row indices.
- Uart.Step: the code's recall and carriage-return tests read the byte before the buffer when the index is 0, and the recall test's `memcmp` also reads past the buffer's end when the ESC mark is 39 or 40. The model compares only buffer positions, so the recall test is made only when the ESC mark is at least 1 and all three compared bytes lie in the buffer.
- Message.AddDot requires the padded end to lie below 256, where the 8-bit `len` reaches. A longer line would wrap the index.
- HexText.StrHexToBin requires a string shorter than 256 characters, since its length is held in 8 bits.
- HexText.DataHexDump: `%02X` of a `char` is taken to print one unsigned byte, as on the ARM target.
- Settings.ConfigError requires a code whose low nibble is a HAL status (0..3), since `flash_error` has four entries.
- Command.ValveRequestOf covers only the argument rules of `CmndValve`. The packet it then builds and sends is `DataLink.CreatePack` and `ZigBee.Radio.ZBSendPack1`, and the printed messages are left out.
- Settings.ConfigStore.ConfigSave: the writes to the flash page itself are not modelled, nor what the page holds after a save that fails part way; only the RAM image and the returned code are.
- Command.CmndConfig leaves out the printed listing. The automatic save after a change is `Settings.ConfigStore.ConfigSave`.
- Command.CmndConfig takes the leftover bytes of the function's local union and key buffer as parameters, because C leaves them uninitialised.
- Command.ConfigAfter: the code's independent `if` tests are written as an else-if chain. `Command.OnlyKeyword` shows this selects the same setting.
- Calendar.GetTimeDate reads the counter as a parameter; reading it from the RTC is hardware.
- Calendar.SecToDtime requires a biased count of at least one year past 1900. The RTC counters 2085978496 to 2117514495 (2036-02-07 06:28:16 to 2037-02-07 06:28:15) wrap the 32-bit bias sum below that. For them the C year search starts at year 0, where `(year - 1) / 4` wraps to 0x3FFFFFFF, and counts down through wrapped 32-bit years to a meaningless year; that path is not modelled. `Calendar.GetTimeDate` decodes these counters correctly.
- Calendar.TimeSet and Calendar.DateSet: the RTC write is left out. Its outcome is the `rtcOk` parameter.

## Findings

| source | as written | input that shows it | evidently intended | confidence | as-written member | corrected member |
|---|---|---|---|---|---|---|
| FirmWare/Source/xtime.c:111 | the 1900 bias is added to the counter in 32 bits | the counter of 01.01.2050 00:00:00 decodes to 25.11.1913 17:31:44 | every counter value up to 2106 decodes to its own date | not executed | Calendar.CounterWrapAfter2036 | Calendar.GetTimeDate |
| FirmWare/Source/data.c:384 | the aging loop stops at the first free slot | slot 0 evicted, device 7 in slot 1: device 7 is never evicted | every occupied slot ages and expires after 120 ticks | not executed | Directory.AsWrittenNeverEvicts | Directory.EvictedWithin |
| FirmWare/Source/zigbee.c:414 | the remainder is reduced by the packet size without checking that the size fits | a 10-byte block with a STATE tag: remainder 10 - 24 wraps to 65522 | a packet longer than the rest of the block ends the loop | not executed | ZigBeeProps.SplitUnderflow | ZigBeeProps.SplitTruncatedStops |
| FirmWare/Source/zigbee.c:606 | the unicast payload limit is 76, which ignores the two address bytes | a 75-byte payload makes an 81-byte frame in the 80-byte buffer | the limit leaves room for the address: 74 | not executed | ZBFrames.Pack1GuardOverrun | ZigBee.Radio.ZBSendPack1 |
| FirmWare/Source/parse.c:44-50 | the token loop has no bound on the token count | "a b c d e f g h i j k" has 11 tokens for 10 rows | tokens beyond the tenth are ignored | not executed | Parse.ParseOverrunAsWritten | Parse.Parser.ParseCommand |
| FirmWare/Source/parse.c:49 | a token is copied into its row without a length check | a 36-character word in a 35-character row | a token is clipped to what a row holds | not executed | Parse.LongTokenAsWritten | Parse.Parser.ParseCommand |
| FirmWare/Source/parse.c:83 | GetParamVal refuses only indexes above 10 | index 10 addresses the row one past the table | indexes from 10 on are refused | not executed | Parse.ParamRowPastTable | Parse.Parser.GetParamVal |
| FirmWare/Source/command.c:329-330 | the gate address is range-checked before its bytes are swapped | "FFF9" is accepted and stored as FFF9; "F9FF" is refused | the stored address is at most FFF8 | not executed | Command.GateCheckAsWritten | Command.GateTyped |
