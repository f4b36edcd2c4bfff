# searchd daemon core, modelled in Dafny

This project models the shared core of the Manticore search daemon (`searchd`).
It covers the following parts:

- **Wire framing.** The network-order scalar codecs, and the output buffer
  (`ISphOutputBuffer`, `CachedOutputBuffer_c` with its deferred length
  slots, `SmartOutputBuffer_t` with its chunk list, `ReqLenCalc`). Also the
  input buffer (`InputBuffer_c`), a cursor with a sticky error flag, and the
  array helpers `SendArray`/`GetArray`.
- **The `listen` directive parser** (`ParseListener`, `ProtoByName`,
  `IsPortInRange`) and the `LIKE` filter of the SHOW statements
  (`CheckLike`).
- **Index kinds** (`IndexType_e`, `GetTypeName`, `TypeOfIndexConfig`) and
  the capability predicates of a served index (`ServedDesc_t::Is*`).
- **Per-index query statistics** (`QueryStatContainer_c`,
  `QueryStatContainerExact_c`, `ServedStats_c`): 100 ms buckets, 15-minute
  eviction, and interval reports with min, max, average and percentiles.
- **The ref-counted registry** `GuardedHash_c` and the shutdown-callback
  list (`AddShutdownCb`, `DeleteShutdownCb`, `FireShutdownCbs`).
- **From the distributed layer:** the agent metrics (`MetricsAndCounters_t`),
  the `IOVec_c` accessors, `MultiAgentDesc_c::IsHA` and
  `DistributedIndex_t::IsEmpty`.

The C++ integer widths are subset types (`Byte`, `Word`, `Dword`, `Qword`,
`Int32`, `Int64`). Every `uint64_t` sum in the query statistics wraps
explicitly. Four counts are unbounded instead: the `size_t` total of
`GetIOVec`, the `int` of `SmartOutputBuffer_t::GetSentCount`, the DWORD
query total of `CalcStatsForInterval` and the bucket count `m_iCount` of
the query statistics container (see "## Left out").

Some objects are updated in place by the code, and those are classes with
`modifies` clauses: the buffers, the stats containers, the hash, the
callback list and the metrics. A class method is specified against pure
functions (`CommitAll`, `TranslateFixed`, `Parse`, `IntervalStat`,
`EvictCount`, `Callbacks`), and the promised properties are proved about
those functions as lemmas.

A fatal configuration error (`sphFatal`) is a `Fatal` result. The following
become parameters:

- host name resolution;
- the wildcard matcher;
- the clock;
- the t-digest percentiles.

## Model

| member | source | states |
|---|---|---|
| Wire.ToInt32 | src/searchdaemon.h:481 | reading 32 bits as `int` keeps the value modulo 2^32 in the signed range, and is the identity on values already in range |
| Wire.Int32Bits | src/searchdaemon.h:322 | the bit pattern `htonl` sees for an `int`: the value itself when non-negative, value + 2^32 when negative |
| Wire.Add64 | src/searchdaemon.cpp:1081 | `uint64_t` addition: the exact sum below 2^64, sum - 2^64 above |
| Wire.Sub64 | src/searchdaemon.cpp:1077 | `uint64_t` subtraction of timestamps: the distance when the later stamp is not smaller, otherwise wrapped by 2^64 |
| Wire.Div64 | src/searchdaemon.cpp:1323 | an unsigned division by a positive count never exceeds the dividend; dividing by 1 is the identity |
| Wire.WordRoundTrip | src/searchdaemon.h:330 | `SendWord` then `GetWord` gives the same word |
| Wire.WordBytesOf | src/searchdaemon.h:482 | every two bytes are the encoding of the word decoded from them |
| Wire.DwordRoundTrip | src/searchdaemon.h:329 | `htonl` then `ntohl` gives the same dword |
| Wire.DwordBytesOf | src/searchdaemon.h:483 | every four bytes are the encoding of the dword decoded from them |
| Wire.DwordBytesBigEndian | src/searchdaemon.h:329 | network order puts the most significant byte first |
| Wire.IntRoundTrip | src/searchdaemon.h:481 | `SendInt` then `GetInt` gives the same signed `int`, negative values included |
| Wire.LsbDwordRoundTrip | src/searchdaemon.h:334-340 | `SendLSBDword` then `GetLSBDword` gives the same dword |
| Wire.LsbIsReversedDword | src/searchdaemon.h:334-340 | the little-endian encoding is the network-order one reversed |
| Wire.QwordRoundTrip | src/searchdaemon.h:342-346 | high dword then low dword decodes back to the same 64-bit value |
| Wire.Int64Bits | src/searchdaemon.h:348-351 | `SendUint64(int64_t)` sends the two's-complement pattern of the value |
| Wire.ClampToDword | src/searchdaemon.h:324-328 | `SendAsDword` sends the value when it fits, 0 for a negative value, and UINT_MAX above |
| Wire.ClampMonotone | src/searchdaemon.h:324-328 | a larger value never sends a smaller dword |
| OutputBuffers.Patch | src/searchdaemon.h:375-376 | writing over a range changes exactly that range and keeps the length |
| OutputBuffers.SlotBytes | src/searchdaemon.cpp:671-679 | a length slot holds the distance from its own end to the end of the buffer |
| OutputBuffers.CommitTop | src/searchdaemon.cpp:671-679 | committing the innermost slot keeps the length and leaves the outer slots open |
| OutputBuffers.CommitAllFillsSlots | src/searchdaemon.cpp:681-689 | after committing every slot, each slot holds the byte count that follows it, and every byte outside the slots is unchanged |
| OutputBuffers.Concat | src/searchdaemon.cpp:700-707 | the concatenated chunks are as long as the sum of the chunk lengths |
| OutputBuffers.FlattenLength | src/searchdaemon.h:1357-1362 | n elements of `size` bytes flatten to n * size bytes |
| OutputBuffers.CachedOutputBuffer.GetSentCount | src/searchdaemon.h:370 | the number of bytes in the buffer |
| OutputBuffers.CachedOutputBuffer.BlobsEmpty | src/searchdaemon.h:427 | true exactly when no length slot is open |
| OutputBuffers.CachedOutputBuffer.SendT | src/searchdaemon.h:386-391 | appends the bytes and leaves the open slots alone |
| OutputBuffers.CachedOutputBuffer.SendByte | src/searchdaemon.h:332 | appends one byte |
| OutputBuffers.CachedOutputBuffer.SendWord | src/searchdaemon.h:330 | appends the word in network order (two bytes) |
| OutputBuffers.CachedOutputBuffer.SendDword | src/searchdaemon.h:329 | appends the dword in network order (four bytes) |
| OutputBuffers.CachedOutputBuffer.SendInt | src/searchdaemon.h:322 | appends the `int`'s bit pattern in network order |
| OutputBuffers.CachedOutputBuffer.SendAsDword | src/searchdaemon.h:324-328 | appends the value clamped to [0, UINT_MAX] |
| OutputBuffers.CachedOutputBuffer.SendLSBDword | src/searchdaemon.h:334-340 | appends the dword least significant byte first |
| OutputBuffers.CachedOutputBuffer.SendUint64 | src/searchdaemon.h:342-346 | appends the high dword, then the low dword |
| OutputBuffers.CachedOutputBuffer.SendInt64 | src/searchdaemon.h:348-351 | appends the `int64_t` as its unsigned pattern |
| OutputBuffers.CachedOutputBuffer.SendBytes | src/searchdaemon.h:353 | appends the raw bytes |
| OutputBuffers.CachedOutputBuffer.SendString | src/searchdaemon.cpp:648-653 | appends an `int` length, then the bytes; a null string sends length 0; the argument is a NUL-free C string, as `strlen` measures it |
| OutputBuffers.CachedOutputBuffer.SendArray | src/searchdaemon.h:1357-1362 | appends the element count as `int`, then every element's bytes in order |
| OutputBuffers.CachedOutputBuffer.WriteInt | src/searchdaemon.h:375-376 | overwrites four bytes at the offset with the `int` in network order |
| OutputBuffers.CachedOutputBuffer.StartMeasureLength | src/searchdaemon.cpp:663-669 | reserves a zero `int` at the current end, opens a slot there and returns its position |
| OutputBuffers.CachedOutputBuffer.CommitMeasuredLength | src/searchdaemon.cpp:671-679 | with no open slot nothing changes; otherwise the innermost slot is closed and filled with the byte count after it |
| OutputBuffers.CachedOutputBuffer.CommitAllMeasuredLengths | src/searchdaemon.cpp:681-689 | closes every slot, innermost first, giving `CommitAll` of the old contents |
| OutputBuffers.CachedOutputBuffer.Flush | src/searchdaemon.cpp:657-661 | commits every open length before the data leaves |
| OutputBuffers.CachedOutputBuffer.SwapData | src/searchdaemon.h:426 | hands out the committed contents and adopts the caller's bytes |
| OutputBuffers.ReqLenCalc.constructor | src/searchdaemon.h:408-415 | writes command and version words, then opens a length slot right after them |
| OutputBuffers.ReqLenCalc.Close | src/searchdaemon.h:417-421 | closes the request's slot (nothing if a flush already closed it) |
| OutputBuffers.RequestHeaderHoldsBodyLength | src/searchdaemon.h:408-421 | a request framed by ReqLenCalc carries the exact body length in its header |
| OutputBuffers.EncodeRequest | src/searchdaemon.h:408-421 | a framed request is command, version, body length, body: body + 8 bytes |
| OutputBuffers.SmartOutputBuffer.GetSentCount | src/searchdaemon.cpp:700-707 | the bytes of every chunk plus the active buffer |
| OutputBuffers.SmartOutputBuffer.StartNewChunk | src/searchdaemon.cpp:709-715 | the committed active buffer becomes the last chunk; the byte count is unchanged |
| OutputBuffers.SmartOutputBuffer.GetIOVec | src/searchdaemon.cpp:750-769 | one vector per chunk plus the active buffer when non-empty; the vectors concatenate to all the data, and the returned size is their total |
| OutputBuffers.SmartOutputBuffer.Reset | src/searchdaemon.cpp:771-779 | drops every chunk and empties the active byte vector, so nothing is left to send; the open length slots stay as they were, and the buffer stays consistent exactly when none was open |
| InputBuffers.Split | src/searchdaemon.h:1365-1373 | cuts bytes into `size`-byte elements |
| InputBuffers.SplitFlatten | src/searchdaemon.h:1365-1373 | splitting flattened equal-size elements gives the elements back |
| InputBuffers.InputBuffer.FromPointer | src/searchdaemon.cpp:877-879 | a null pointer or a negative length starts in error with nothing readable; the declared length is kept as given; the cursor starts at 0 |
| InputBuffers.InputBuffer.constructor | src/searchdaemon.cpp:881-882 | an empty vector starts in error |
| InputBuffers.InputBuffer.HasBytes | src/searchdaemon.h:500-503 | the declared length minus the cursor, which is the readable bytes left unless the buffer started in error |
| InputBuffers.InputBuffer.GetError | src/searchdaemon.h:491 | the sticky error flag |
| InputBuffers.InputBuffer.GetLength | src/searchdaemon.h:494 | the declared length, which is the readable length whenever no error is raised |
| InputBuffers.BrokenPointerKeepsLength | src/searchdaemon.cpp:877-879 | after a null pointer or a negative length, GetLength and HasBytes both report the length as given, and a read yields 0 with the error |
| InputBuffers.InputBuffer.GetT | src/searchdaemon.h:513-524 | a read that fits returns the next bytes and advances; otherwise it raises the error, returns zeros and leaves the cursor |
| InputBuffers.InputBuffer.GetByte | src/searchdaemon.h:486 | the next byte, or 0 and the error at the end |
| InputBuffers.InputBuffer.GetWord | src/searchdaemon.h:482 | the next big-endian word, or 0 and the error |
| InputBuffers.InputBuffer.GetDword | src/searchdaemon.h:483 | the next big-endian dword, or 0 and the error |
| InputBuffers.InputBuffer.GetInt | src/searchdaemon.h:481 | the next big-endian `int`, or 0 and the error |
| InputBuffers.InputBuffer.GetLSBDword | src/searchdaemon.h:484 | four bytes little-endian; a short buffer consumes what is left and raises the error |
| InputBuffers.InputBuffer.GetUint64 | src/searchdaemon.h:485 | high dword then low dword; a failing second read leaves the first dword consumed |
| InputBuffers.InputBuffer.GetString | src/searchdaemon.cpp:885-901 | reads an `int` length and that many bytes; a negative or over-limit length, or missing bytes, raises the error and yields empty |
| InputBuffers.InputBuffer.GetRawString | src/searchdaemon.cpp:904-919 | exactly `len` bytes when `len` is in [0, max packet] and present, else empty with the error |
| InputBuffers.InputBuffer.GetStringInto | src/searchdaemon.cpp:922-935 | appends a length-prefixed string to the vector; a zero length succeeds and appends nothing |
| InputBuffers.InputBuffer.GetBytes | src/searchdaemon.cpp:938-952 | succeeds exactly when the bytes are present and no error is raised, and then returns them |
| InputBuffers.InputBuffer.GetBytesZerocopy | src/searchdaemon.cpp:954-968 | as GetBytes, but returns the offset of the bytes in place |
| InputBuffers.InputBuffer.GetDwords | src/searchdaemon.cpp:971-988 | a count in [0, max] followed by that many dwords is read; otherwise it fails with the error |
| InputBuffers.InputBuffer.GetQwords | src/searchdaemon.cpp:991-1008 | the same for 64-bit values |
| InputBuffers.GetArray | src/searchdaemon.h:1365-1373 | a zero count leaves the destination; a positive count with its bytes present yields the split elements; anything else raises the error |
| RoundTrips.ScalarsRoundTrip | src/searchdaemon.h:322-351 | word, dword, int, qword and little-endian dword sent in turn are read back unchanged, with nothing left over |
| RoundTrips.StringRoundTrip | src/searchdaemon.cpp:885-901 | a NUL-free string within the packet limit sent by SendString is read back by GetString |
| RoundTrips.OversizedStringRefused | src/searchdaemon.cpp:891-895 | a string over the packet limit is refused, with the error raised and the body left unread |
| RoundTrips.ArrayRoundTrip | src/searchdaemon.h:1357-1373 | SendArray then GetArray gives the same elements |
| RoundTrips.RequestRoundTrip | src/searchdaemon.h:408-421 | command, version and body length of a framed request are read back as sent |
| Like.RemapChar | src/searchdaemon.cpp:59-76 | `_` becomes `?`, `%` becomes `*`, `?`/`*` are escaped, other characters stay |
| Like.Translate | src/searchdaemon.cpp:49-79 | the rewrite as written, one character at a time; it is at least as long as the pattern and at most twice as long |
| Like.TranslateLength | src/searchdaemon.cpp:54 | the corrected rewrite is at least as long as the pattern and at most twice as long, so its characters fit in the doubled reservation (the terminating byte is not counted) |
| Like.CheckLike.constructor | src/searchdaemon.cpp:49-79 | a null pattern is empty; otherwise the pattern, a NUL-free C string, becomes its (corrected) rewrite |
| Like.CheckLike.Match | src/searchdaemon.cpp:81-84 | a null value never matches; an empty pattern matches every other value; otherwise the wildcard matcher decides |
| Like.TranslateBackslashCounterexample | src/searchdaemon.cpp:59-76 | LIKE `\_` accepts `\x`, but its rewrite as written `\?` does not |
| Like.TranslateFixedAgrees | src/searchdaemon.cpp:59-76 | without backslashes the corrected rewrite is the one as written |
| Like.TranslateFixedIsLike | src/searchdaemon.cpp:49-84 | wildcard matching of the corrected rewrite is exactly LIKE matching, for every pattern and value |
| Like.TranslateIsLike | src/searchdaemon.cpp:49-84 | the rewrite as written is exact on patterns without backslashes |
| Like.MatchIsLike | src/searchdaemon.cpp:81-84 | a matcher from a non-empty pattern accepts exactly the values LIKE accepts |
| Listener.SplitJoin | src/searchdaemon.cpp:215 | splitting by a separator and joining back gives the input; no field holds the separator |
| Listener.ToLower | src/searchdaemon.cpp:185 | ASCII upper case becomes lower case, everything else stays |
| Listener.LeadingDigits | src/searchdaemon.cpp:241-244 | the longest all-digit prefix |
| Listener.DecimalValueBound | src/searchdaemon.cpp:246-251 | a string of n digits is below 10^n |
| Listener.Atol | src/searchdaemon.cpp:249 | `atol` is the `strtol` value whenever that fits in 64 bits |
| Listener.Atoi | src/searchdaemon.cpp:288 | `atoi` is the `strtol` value whenever that fits in 32 bits |
| Listener.ShortDigitsValue | src/searchdaemon.cpp:246-251 | at most five digits read as their decimal value, below 100000 |
| Listener.ProtoName | src/searchdaemon.cpp:169-181 | every protocol name is non-empty and has no `_` |
| Listener.SimpleProtoByName | src/searchdaemon.cpp:169-181 | recognises exactly the four protocol names; anything else is an error |
| Listener.NotAProtoName | src/searchdaemon.cpp:179 | no other string is a protocol name |
| Listener.ProtoSpecNames | src/searchdaemon.cpp:183-202 | `name` selects the protocol, `name_vip` also sets VIP |
| Listener.ProtoSpecOnlyNames | src/searchdaemon.cpp:183-202 | only those two forms are accepted |
| Listener.ProtoByName | src/searchdaemon.cpp:183-202 | changes only the protocol and may set, never clear, the VIP flag; the `IsEmpty` guard at line 189 is not modelled, because the split always yields a first field |
| Listener.ProtoByNameExact | src/searchdaemon.cpp:183-202 | ProtoByName succeeds exactly on a lower-cased `name` or `name_vip`, setting the protocol and the VIP flag and nothing else |
| Listener.ProtoNameInjective | src/searchdaemon.cpp:169-181 | distinct protocols have distinct names |
| Listener.ProtoVipForm | src/searchdaemon.cpp:187-199 | splitting by `_` gives one field for `name` and two for `name_vip` |
| Listener.IsPortInRange | src/searchdaemon.cpp:501-504 | a port is valid exactly when it lies in 1..65535 |
| Listener.Parse | src/searchdaemon.cpp:205-303 | the parse as a function; with `emptyHostIsAny` false it is the code as written. An accepted UNIX socket path starts with `/` and holds no `:`, and a port range counts 0 or at least 2 ports |
| Listener.ParseListener | src/searchdaemon.cpp:205-303 | the field-by-field parse equals `Parse` with the empty-host reading corrected |
| Listener.TooManyFieldsFatal | src/searchdaemon.cpp:218-219 | more than three colon-separated fields is fatal |
| Listener.UnixSocketListener | src/searchdaemon.cpp:225-235 | a path is a UNIX socket with the default port; a path with two more fields is fatal |
| Listener.BarePort | src/searchdaemon.cpp:246-264 | a bare number of at most five digits is accepted exactly when it is in 1..65535, and then sets only the port |
| Listener.PortLikeFirstFieldFatal | src/searchdaemon.cpp:246-276 | a first field of one to five digits followed by more fields is fatal when it is not in 1..65535 (`0:sphinx`, `99999:mysql41`), and fatal when two more fields follow |
| Listener.PortProtoListener | src/searchdaemon.cpp:266-276 | `port:proto` is accepted exactly when the protocol name is known, and then sets the port, the protocol and the VIP flag and nothing else |
| Listener.HostPortListener | src/searchdaemon.cpp:278-302 | `host:port` is accepted exactly when the host resolves and the port is in 1..65535, and listens on the resolved address and that port |
| Listener.HostPortProtoListener | src/searchdaemon.cpp:278-302 | `host:port:proto` is accepted exactly when the host resolves, the port is in range and the protocol name is known, and sets all three |
| Listener.AcceptedPortsInRange | src/searchdaemon.cpp:246-301 | an accepted TCP listener has its port in range, and a range has at least two ports ending in range |
| Listener.PortRangeCount | src/searchdaemon.cpp:287-301 | `host:a-b` is accepted exactly when both ends are in 1..65535 and b - a is at least 2 (so `host:9000-9000` and `host:9000-9001` are fatal), and then sets port a and count b - a |
| Listener.EmptyHostFatal | src/searchdaemon.cpp:237-251 | as written, and with a split that keeps an empty leading field, every spec starting with `:` is fatal |
| Listener.EmptyHostIsAny | src/searchdaemon.cpp:282-284 | with the corrected reading, `:port` binds every address on that port |
| IndexTypes.GetTypeName | src/searchdaemon.cpp:128-140 | every kind has a non-empty name that reads back as that kind |
| IndexTypes.TypeOfIndexConfig | src/searchdaemon.cpp:142-160 | an absent type setting is a plain index |
| IndexTypes.TypeNameInjective | src/searchdaemon.cpp:128-140 | distinct kinds have distinct names |
| IndexTypes.TypeOfIndexConfigRecognised | src/searchdaemon.cpp:142-160 | a recognised setting is empty or the kind's own name; `invalid` is not recognised |
| IndexTypes.IsMutable | src/searchdaemon.h:678-684 | a null descriptor is not mutable; a mutable one is RT or percolate |
| IndexTypes.IsCluster | src/searchdaemon.h:686-692 | a null descriptor is not a cluster; one from the replication config is |
| IndexTypes.IsFT | src/searchdaemon.h:702-709 | a null descriptor is not full-text; a full-text one is plain, RT or distributed (Capabilities states the converse) |
| IndexTypes.IsSelectable | src/searchdaemon.h:694-700 | a null descriptor is not selectable; every full-text one is |
| IndexTypes.Capabilities | src/searchdaemon.h:678-709 | full-text exactly for plain, RT and distributed indexes; selectable exactly for kinds other than template and error; mutable implies selectable; percolate is the mutable non-full-text kind and RT the mutable full-text one |
| QueryStats.Singleton | src/searchdaemon.cpp:1097-1107 | a fresh bucket is well formed, counts one sample and carries the sample's timestamp |
| QueryStats.Fold | src/searchdaemon.cpp:1079-1085 | folding a sample brackets it between min and max, only widens the range, and wraps the sum |
| QueryStats.Merge | src/searchdaemon.cpp:1079-1087 | a merged bucket stays well formed, counts one more and keeps its timestamp |
| QueryStats.EvictCount | src/searchdaemon.cpp:1093-1095 | the leading buckets older than 15 minutes, up to the first younger one |
| QueryStats.QueryStatContainer.GetNumRecords | src/searchdaemon.cpp:1116-1119 | the number of buckets |
| QueryStats.QueryStatContainer.GetRecord | src/searchdaemon.cpp:1110-1113 | the i-th bucket, which is well formed |
| QueryStats.QueryStatContainer.Add | src/searchdaemon.cpp:1071-1108 | a sample within 100 ms of the newest bucket merges into it; otherwise expired buckets go and a new bucket is pushed |
| QueryStats.MergeAll | src/searchdaemon.cpp:1071-1087 | a run of samples merged into one bucket: the count grows by the run's length, min and max bracket every sample, and each sum is the old sum plus the run's total modulo 2^64 |
| QueryStats.AddBurst | src/searchdaemon.cpp:1071-1087 | samples all within 100 ms of the newest bucket leave the other buckets alone and turn the newest into MergeAll of the run |
| QueryStats.QueryStatContainer.Evict | src/searchdaemon.cpp:1093-1095 | drops exactly the expired prefix |
| QueryStats.QueryStatContainerExact.Add | src/searchdaemon.cpp:1165-1175 | drops the expired prefix and appends the raw sample |
| QueryStats.QueryStatContainerExact.GetNumRecords | src/searchdaemon.cpp:1178-1181 | the number of samples |
| QueryStats.QueryStatContainerExact.GetRecord | src/searchdaemon.cpp:1184-1197 | a one-sample bucket whose min, max and sum are the sample |
| QueryStats.Window | src/searchdaemon.cpp:1311-1316 | every bucket kept is inside the interval before now, and every bucket inside it is kept |
| QueryStats.WindowConcat | src/searchdaemon.cpp:1311-1316 | the window distributes over concatenation, so the kept buckets keep their order |
| QueryStats.Insert | src/searchdaemon.cpp:1332-1333 | inserting into a sorted sequence keeps it sorted and adds exactly one element |
| QueryStats.Sort | src/searchdaemon.cpp:1332-1333 | a sorted permutation of the input |
| QueryStats.PercentileIndex | src/searchdaemon.cpp:1344-1345 | the percentile position is a valid index |
| QueryStats.PercentileIndexMonotone | src/searchdaemon.cpp:1344-1345 | a higher percentile never picks an earlier position |
| QueryStats.PercentileIndexExamples | src/searchdaemon.cpp:1344-1345 | the 95th/99th positions for 100, 20 and 1 buckets |
| QueryStats.WindowEmpty | src/searchdaemon.cpp:1315 | with no bucket inside the interval the window is empty |
| QueryStats.MinBracket | src/searchdaemon.cpp:1317-1321 | the reported minimum is at most every bucket's minimum and is one of them |
| QueryStats.MaxBracket | src/searchdaemon.cpp:1317-1321 | the reported maximum is at least every bucket's maximum and is one of them |
| QueryStats.CountAllPositive | src/searchdaemon.cpp:1328 | the query total of a window is at least its bucket count, so the average's division is defined |
| QueryStats.PercentilesOrdered | src/searchdaemon.cpp:1344-1351 | the 95th percentile never exceeds the 99th |
| QueryStats.EmptyWindowDefaults | src/searchdaemon.cpp:1296-1339 | an empty window reports average 0, minimum UINT64_MAX, maximum 0, zero queries, and keeps the caller's percentiles |
| QueryStats.IntervalStat | src/searchdaemon.cpp:1290-1352 | the report for one quantity over the window: with no bucket, the defaults and the caller's percentiles; otherwise the minimum is at most the maximum |
| QueryStats.PercentilesAreAverages | src/searchdaemon.cpp:1331-1351 | each reported percentile is the average of one bucket in the window |
| QueryStats.CalcStatsForInterval | src/searchdaemon.cpp:1290-1352 | the loop's row and time elements are `IntervalStat` of the window |
| QueryStats.ServedStats.constructor | src/searchdaemon.cpp:1220-1230 | both containers empty, minima at UINT64_MAX, maxima, sums and count at 0 |
| QueryStats.ServedStats.AddQueryStat | src/searchdaemon.cpp:1240-1263 | the sample is added to the bucketed container as its Add promises and appended to the exact one after eviction; the all-time minima, maxima, sums and count are updated |
| QueryStats.ServedStats.AllTime | src/searchdaemon.cpp:1369-1383 | the all-time element: average of the sum over the count (0 with no queries), min, max and count |
| QueryStats.ServedStats.DoStatCalcStats | src/searchdaemon.cpp:1354-1384 | the 1-, 5- and 15-minute elements are `IntervalStat` of their windows; the fourth is the all-time element |
| GuardedHash.AccountedUpdate | src/searchdaemon.cpp:1476-1492 | replacing an entry moves one reference from the old value to the new one and keeps the accounting |
| GuardedHash.AccountedRemove | src/searchdaemon.cpp:1494-1503 | removing an entry drops the one reference it held |
| GuardedHash.AccountedLend | src/searchdaemon.cpp:1536-1546 | handing a reference to the caller keeps the accounting |
| GuardedHash.AccountedNoEntries | src/searchdaemon.cpp:1528-1534 | with no entries left, the only references are the ones lent out |
| GuardedHash.GuardedHash.constructor | src/searchdaemon.cpp:1449-1453 | an empty hash holding no references |
| GuardedHash.GuardedHash.AddUniq | src/searchdaemon.cpp:1462-1473 | adds and adopts the value exactly when the key is new; otherwise nothing changes |
| GuardedHash.GuardedHash.AddOrReplace | src/searchdaemon.cpp:1476-1492 | the key maps to the new value, the previous value's reference is released, and the hook is called when set |
| GuardedHash.GuardedHash.Delete | src/searchdaemon.cpp:1494-1503 | removes the key and releases its value; reports whether the key was there |
| GuardedHash.GuardedHash.DeleteIfNull | src/searchdaemon.cpp:1505-1512 | removes the key only when it holds null (or is absent); a non-null entry is kept |
| GuardedHash.GuardedHash.GetLength | src/searchdaemon.cpp:1514-1518 | the number of entries |
| GuardedHash.GuardedHash.Contains | src/searchdaemon.cpp:1521-1526 | whether the key is present, even with a null value |
| GuardedHash.GuardedHash.ReleaseAndClear | src/searchdaemon.cpp:1528-1534 | releases every held reference and empties the hash |
| GuardedHash.GuardedHash.Get | src/searchdaemon.cpp:1536-1546 | the value under the key (null when absent), with a reference added for the caller |
| GuardedHash.GuardedHash.TryAddThenGet | src/searchdaemon.cpp:1548-1561 | an existing entry is returned unchanged; otherwise the value is adopted and returned; either way the caller gets a reference |
| GuardedHash.AddUniqIsFirstWins | src/searchdaemon.cpp:1462-1473 | of two AddUniq calls on one key the first wins, and TryAddThenGet then returns it |
| GuardedHash.ReplaceKeepsNewest | src/searchdaemon.cpp:1476-1492 | after two AddOrReplace calls the key holds the second value, and the hook saw both in order |
| GuardedHash.DeleteVariants | src/searchdaemon.cpp:1494-1512 | DeleteIfNull refuses a non-null entry and removes a null one; Delete removes the rest |
| GuardedHash.ClearDropsOwnedRefs | src/searchdaemon.cpp:1528-1534 | after ReleaseAndClear only the caller's reference survives |
| Shutdown.Callbacks | src/searchdaemon.cpp:1730-1740 | the callbacks of the list, head first |
| Shutdown.ShutdownList.constructor | src/searchdaemon.cpp:1703 | an empty list, nothing run |
| Shutdown.ShutdownList.Add | src/searchdaemon.cpp:1705-1711 | appends a node with a cookie not on the list and returns the cookie |
| Shutdown.ShutdownList.Delete | src/searchdaemon.cpp:1714-1727 | a null cookie or an empty list changes nothing; otherwise exactly the node with that cookie is removed |
| Shutdown.ShutdownList.Fire | src/searchdaemon.cpp:1730-1740 | runs every callback once, head first, and leaves the list empty |
| Shutdown.FireInOrder | src/searchdaemon.cpp:1705-1740 | callbacks run in registration order, a deleted one never runs, and a second shutdown runs nothing |
| Shutdown.DeleteAfterFire | src/searchdaemon.cpp:1714-1727 | deleting from an emptied list is ignored |
| Agents.AddI64 | src/searchdha.h:159-160 | the atomic counter sum: exact in range, congruent modulo 2^64 always |
| Agents.Mul64 | src/searchdha.h:162-166 | `uint64_t` product: exact below 2^64 |
| Agents.WeightedMean | src/searchdha.h:162-166 | without overflow, the merged average lies between the two averages, and equal averages stay |
| Agents.MeanBounds | src/searchdha.h:162-166 | a weighted mean lies between its two values |
| Agents.MetricsAndCounters.constructor | src/searchdha.h:143-147 | every metric starts at 0 |
| Agents.MetricsAndCounters.Reset | src/searchdha.h:149-155 | every counter and every metric is 0 |
| Agents.MetricsAndCounters.Add | src/searchdha.h:157-171 | counters add pairwise; the average is copied when this side has no tries and weighted otherwise; max is the larger; tries add; total time is unchanged |
| Agents.MergeMetrics | src/searchdha.h:157-171 | merging into empty metrics copies the average; merging equal averages keeps it; tries add; max carries over |
| Agents.IOVec.HasUnsent | src/searchdha.h:436-439 | whether unsent chunks remain |
| Agents.IOVec.IsEmpty | src/searchdha.h:442-445 | whether there are no chunks at all, sent or not |
| Agents.IOVec.IOPtr | src/searchdha.h:448-453 | null exactly when nothing is unsent; otherwise the first unsent chunk, which leaves IOSize chunks to the end |
| Agents.IOVec.IOSize | src/searchdha.h:456-459 | the number of unsent chunks |
| Agents.IOVecConsistent | src/searchdha.h:436-459 | unsent data implies a non-empty vector, and IOPtr and IOSize describe the same tail |
| Agents.IsHA | src/searchdha.h:333-336 | an agent is highly available exactly when it has more than one mirror |
| Agents.IsEmptyIndex | src/searchdha.h:661-664 | a distributed index is empty exactly when it has neither agents nor local indexes |

## Left out

- Sockets, polling, `NetOutputBuffer_c`/`NetInputBuffer_c`, locks and reference-count atomics are not modelled; each operation runs alone.
- Host name resolution (`sphGetAddress`) is the `resolve` parameter. The clock (`sphMicroTimer`) is the `timestamp`/`now` parameter. The t-digest percentiles are parameters of `DoStatCalcStats`.
- `sphWildcardMatch` is a parameter of `CheckLike.Match`. `WildMatch` is the language the rewrite assumes of it; the matcher itself is not part of this model.
- `sphSplit` is not part of this model. It is read as a split that keeps every field, empty ones included, and an empty listen spec is one empty field. The guard `if ( !dParts.IsEmpty() )` at src/searchdaemon.cpp:189 hints that the real split may drop empty fields. That reading decides the inputs with a leading, trailing or doubled separator: `:9312` (fatal here, a bare port under a dropping split), `9306:mysql41:` (three fields here, so fatal; two under a dropping split) and `sphinx_` (an unknown protocol here; `sphinx` under a dropping split).
- OutputBuffers.SmartOutputBuffer.GetIOVec: the `assert ( dOut.GetLength()<UIO_MAXIOV )` at src/searchdaemon.cpp:767 is not stated; the chunk count is unbounded.
- QueryStats.ServedStats.AddQueryStat: the exact container is always fed. The C++ code builds and feeds it only in debug builds (`#ifndef NDEBUG`).
- List_t is not part of this model. The shutdown list is read as FIFO: `Add` appends at the tail and `Begin` is the head.
- The bodies of `IOVec_c::BuildFrom`, `Reset` and `StepForward` are not part of this model; only the accessors are.
- `SendFloat`, `GetFloat` and `SendBytes(const char*)` (a `strlen` call) are left out because of floating point and C strings.
- Shutdown.ShutdownList.Delete: requires a non-null cookie on a non-empty list to be a node still on the list. For any other cookie the C++ code removes and frees a node it does not own, which is undefined behaviour.
- Agents.MetricsAndCounters.Add: requires that the summed tries do not wrap to 0 when this side has tries; otherwise the C++ code divides by zero.
- Agents.MetricsAndCounters.constructor: does not state the counters' initial value. `CSphAtomicL` initialises itself outside this code.
- Agents.WeightedMean: the bounds are stated only when neither the products nor the tries wrap.
- InputBuffers.InputBuffer.GetBytes: requires `len > 0`, which the C++ code asserts (as does GetBytesZerocopy); its second assertion, `len` within the packet limit, is not required.
- InputBuffers.InputBuffer.GetLSBDword: fixes left-to-right evaluation of the four `GetByte` calls. C++ leaves the order unspecified.
- InputBuffers.GetArray: a negative count, or a byte size that is not a positive `int`, is an error here. The C++ code would resize the vector to that count.
- QueryStats.CalcStatsForInterval: the query total is unbounded, not a DWORD that wraps. The percentile index is the integer ceiling of n*p/100 minus one, in place of the `ceilf` float expression. The records come from the bucketed container; the exact container feeds the same function through `GetRecord`.
- QueryStats.QueryStatContainer.Add: the bucket count `m_iCount` is unbounded, not an `int`.
- IndexTypes.IsCluster: `ServedDesc` keeps only the type, the JSON flag and the cluster name; the other fields of `ServedDesc_t` are not read by the modelled predicates.
- GuardedHash.GuardedHash.AddOrReplace: the reference counts are ghost multisets and the hook is a call log. The hook is fixed when the hash is built, whereas `SetAddOrReplaceHook` can set it at any time.
- A range `host:9000-9003` gives a port count of 3 (end - start). This differs from the inclusive count 4 that a reader might expect; the model follows the code.

## Findings

| source | as written | input that shows it | evidently intended | confidence | as-written member | corrected member |
|---|---|---|---|---|---|---|
| src/searchdaemon.cpp:59-76 | the LIKE-to-wildcard rewrite copies a backslash unchanged, and the wildcard matcher reads it as an escape | pattern `\_` and value `\x`: LIKE accepts, the rewrite `\?` rejects | a backslash in the pattern is escaped as `\\` so it matches itself | medium, not executed (the matcher's escape rule is outside this code) | Like.TranslateBackslashCounterexample | Like.TranslateFixedIsLike |
| src/searchdaemon.cpp:237-251 | an empty first field passes the all-digits loop vacuously, `atol("")` is 0 and CheckPort is fatal | listen `:9312` is a fatal error | the empty host binds every address (the `dParts[0].IsEmpty()` branch at line 282) | medium, not executed (depends on `sphSplit` keeping an empty leading field, which is outside this code; under a split that drops it, `:9312` is a bare port and the line 282 branch is still never reached) | Listener.EmptyHostFatal | Listener.EmptyHostIsAny |
