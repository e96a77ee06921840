# BnoMaster in Dafny

BnoMaster is ESP32 firmware for a body-worn motion-capture network. Each node drives a
Bosch BNO055 inertial sensor over UART. It samples one reading every 100 ms into one of two
bounded buffers. Once a second it publishes the buffered readings. A leaf node sends its
JSON fragment over the ESP-WIFI-MESH network to the root node. The root merges what it
received with its own readings, POSTs the JSON document to a REST server, and fans the
server's reply back out to the leaves. A reply code can ask for a single extra reading of
one sensor.

This project models that core:

- **`Bno`**: the BNO055 UART protocol of section 4.7 of the Bosch BNO055 datasheet.
  - Read and write command frames.
  - The bounded retry loops of `DigitalRead` and `DigitalWrite`, which classify responses.
  - Little-endian int16 decoding and integer scaling of vectors and quaternions.
  - The axis remap and sign writes of `Setup`.
  - The mode and name chosen by `GetReading`.
- **`MeshWifi`**: the mesh build.
  - The channel scan and parent selection (`ScanHandler`).
  - The mesh event-bit machine and the status query.
  - The one-hop send (`WifiMeshTxMain`) and receive (`WifiMeshRxMain`) rounds.
- **`SimpleWifi`**: the station-only build.
  - Its event-bit machine, status and disconnect.
  - The station config fields.
  - Its answers to the mesh-capability queries.
- **`Rest`**: the publish path.
  - Both JSON serializers.
  - The HTTP/1.1 POST header builder, whose Content-Length is defined in section 3.3.2 of RFC 7230.
  - The header-value extractor.
  - The mapping from a socket exchange to a response string.
  - The root and leaf paths of `CreateReading`.
- **`MainLoop`**:
  - The two sample buffers, trimmed to the ten newest readings.
  - The alternating buffer indices of the sampling loop and the publish task.
  - The sleep computation.
  - The dispatch on the server's reply code (`ParseRestError`).
- **`Templates`, `Defines`, `Event`**:
  - The byte-buffer helpers and the NVS read status logic.
  - The constant tables.
  - The `Quaternion` value class.
  - The `SensorEvent` record with its shallow copy.
- **`PartitionTool`**: the NVS partition script. It covers the generated binary's name, the
  two tool command lines, and the choice between them.
- **`Common`**: the C and C++ library behaviour the code relies on.
  - Decimal rendering.
  - `atoi`.
  - `std::string::find`.
  - Reading a byte buffer as a C string.

The model does no I/O. Anything the firmware obtains from the outside world is a parameter
of the model:

- scan records, IE lengths and the routing table;
- pending counts and per-slot receive results;
- per-attempt UART replies and send statuses;
- socket outcomes and NVS lookups;
- event sequences and lock availability.

Some symbols are used by the shown code but defined outside it. These are parameters too:

- `UARTLOOPCOUNT` (`loopCount`);
- `CONFIG_MESH_AP_PASSWD` (`meshApPasswd`);
- `sizeof(mesh_assoc_t)` (`assocSize`);
- `REST_READ_FAIL` and `REST_SERVER_ERROR` (`readFail` and `serverError`, required to be
  distinct from each other and from the `rerror` enumerators);
- the tick count (a rendered string in `Reading`).

The ESP-IDF constants used are taken from ESP-IDF's own headers, which are not part of this
model: `ESP_OK` = 0, `ESP_ERR_NVS_INVALID_LENGTH` = 0x110c, `WIFI_AUTH_OPEN` = 0 and
`MESH_ROOT_LAYER` = 1.

The model follows the code as written, including these behaviours:

- **Send failures collide with reply codes.** The failure strings "7", "8" and "9" read back
  through `atoi` as `REST_REQUEST_LINEARA`, `REST_REQUEST_GRAVITY` and `REST_NO_WIFI`. A
  failed connect therefore makes the root take an extra linear-acceleration reading
  (`Rest.SendFailuresCollide`, `MainLoop.SendFailuresTriggerRereads`).
- **The leaf's marker check never matches.** Rx marks an empty slot "No data!", but the leaf
  filters on "No data:". The marker gets through and reads as `REST_OK`
  (`Rest.NoDataMarkerReadsAsOk`).
- **Only the last axis-sign write counts.** Each `SetAxisSign` writes the whole sign register,
  so a left-side node ends with only the Y bit set (`Bno.SetupAxisConfiguration`).
- **The leaf layer is always 1.** It is read from a zeroed association before the copy.
- **A copied `SensorEvent` shares its object and loses its location.** The copy does not copy
  the location, and the original and the copy both delete the same `Quaternion`
  (`Event.SensorEvent.Copy`, `Event.CopyThenDestroyBoth`).
- **An empty event list yields invalid JSON.** With no events but some leaf items, the
  document's array opens with a stray ",\n" (section 5 of RFC 8259)
  (`Rest.DocumentShape`).

## Model

| member | source | states |
|---|---|---|
| Common.AtoiOfIntToString | main/rest.cpp:110-112 | atoi reads the decimal text an ostringstream writes for any int back as that int |
| Common.Find | main/rest.cpp:127-134 | std::string::find: a position it answers lies at or after the start and the pattern occurs there |
| Common.FindIsFirst | main/rest.cpp:127-134 | find skips no occurrence: none lies between the start and its answer, and none at or after the start when it answers npos |
| Common.FindFirst | main/rest.cpp:127-134 | an occurrence with none between the start and it is exactly what find answers |
| Common.CString | main/rest.cpp:176 | string(buffer) keeps exactly the bytes before the first NUL, all non-zero, and stops at a NUL or at the end |
| Defines.InsertionPointsPrecedeCrlf | main/defines.h:33-36 | the insertion points 6 and 16 are the lengths of "Host: " and "Content-Length: ", so an insertion lands just before the CRLF |
| Defines.RestCodesDistinct | main/defines.h:57-70 | the twelve rerror codes are pairwise distinct and the request codes are the contiguous values 3 to 8 |
| Defines.LocationTableTotalInjective | main/defines.h:285-295 | locationToString is defined exactly on the nine location bytes 0 to 8 and gives distinct names |
| Defines.LocationSides | main/defines.h:230-246 | 0 is the chest, odd codes name right-side places and even non-zero codes left-side places |
| Defines.VectorBlocksDisjoint | main/defines.h:248-257 | each vector type's code is its first data register (ACCELEROMETER 0x08, QUATERNION 0x20); the data blocks of distinct types do not overlap and end before the temperature register |
| Defines.VectorNamesRoundTrip | main/defines.h:266-283 | for every kind named in vectorToString, stringToVector maps the name back to the same kind |
| Defines.QuaternionNamedOneWay | main/defines.h:266-283 | QUATERNION has no vectorToString entry, every other kind has one, and "Quaternion" maps to QUATERNION |
| Defines.Quaternion.Vector | main/defines.h:316-318 | the three-argument constructor stores x, y, z and is not a quaternion |
| Defines.Quaternion.Full | main/defines.h:319-321 | the four-argument constructor stores w, x, y, z and is a quaternion |
| Templates.ZeroMemory | main/templates.h:16-21 | bytes 0 up to length become 0; the rest of the buffer is unchanged |
| Templates.CopyMemory | main/templates.h:28-34 | the first length elements of dst equal the old ones of src; the rest of dst is unchanged; length fits both buffers |
| Templates.CompareTo | main/templates.h:55-64 | true exactly when the item occurs in the list |
| Templates.ReadNvs | main/templates.h:73-86 | returns the getter's status and updates the out value only when that status is ESP_OK |
| Templates.ReadNvsString | main/templates.h:94-117 | a failed lookup keeps its status and the old string; a stored length of at most 1 gives ESP_ERR_NVS_INVALID_LENGTH and the old string; otherwise the stored string |
| Event.SensorEvent.Default | main/event.h:19 | the default constructor leaves obj and the location unset and the name empty |
| Event.SensorEvent.Make | main/event.cpp:16-21 | the three-argument constructor stores the object pointer, the name and the location |
| Event.SensorEvent.Copy | main/event.cpp:28-34 | the copy gets the name and shares a non-null object pointer; a null pointer leaves obj unset, and the location is never copied |
| Event.SensorEvent.Destroy | main/event.cpp:41-45 | the destructor deletes the pointed-to object exactly when obj is non-null |
| Event.CopyThenDestroyBoth | main/event.cpp:28-45 | destroying an event and its copy deletes the same Quaternion twice |
| Event.SensorEvent.GetObject | main/event.h:25 | returns the object obj points to |
| Event.SensorEvent.GetLocation | main/event.h:27 | the locationToString name of the stored byte, defined exactly for bytes 0 to 8 (map::at throws otherwise) |
| Event.SensorEvent.SetObj | main/event.h:29 | GetObject then returns the object passed; name and location unchanged |
| Event.SensorEvent.SetName | main/event.h:30 | GetName then returns the name passed; object and location unchanged |
| Event.SensorEvent.SetLocation | main/event.h:31 | stores the location byte; object and name unchanged |
| Bno.FramesParse | main/bno.cpp:287-290 | the read frame [0xAA, 0x01, reg, len] and the one-byte write frame [0xAA, 0x00, reg, 1, value] parse back as the command they encode |
| Bno.DigitalRead | main/bno.cpp:281-321 | sends the read frame; the result and the caller's buffer are those of the retry loop: len bytes from offset 2 of a 0xBB reply over the buffer's head, the rest of the buffer unchanged, and untouched when no 0xBB reply arrived |
| Bno.ReadAttemptsBounded | main/bno.cpp:292-317 | the read loop makes at most loopCount attempts, and it copies only on a 0xBB result, exactly len bytes |
| Bno.ReadAllTimeouts | main/bno.cpp:292-297 | when every attempt times out, all attempts are consumed, nothing is copied and the result is unchanged |
| Bno.ReadStopsEarlyOnlyOnFinalStatus | main/bno.cpp:299-316 | the read loop ends before its last attempt only on a received reply whose status is not one of 0x02, 0x06, 0x07, 0x0A |
| Bno.DigitalWrite | main/bno.cpp:330-362 | sends the write frame; the result is the status byte of the last reply the retry loop read |
| Bno.ReadStopsAtFirstFinal | main/bno.cpp:292-317 | after timeouts and error replies with a retry status, a 0xBB reply ends the loop at that attempt with result 0xBB and its data bytes copied, and a 0xEE reply with any other status ends it with that status and nothing copied |
| Bno.WriteAttemptsBounded | main/bno.cpp:342-358 | the write loop makes at most loopCount attempts and ends early only on a received status that is not one of 0x03, 0x06, 0x07, 0x0A, returning that status |
| Bno.WriteStopsAtFirstFinal | main/bno.cpp:342-358 | after timeouts and retry statuses, a reply with any other status, 0x01 included, ends the write loop at that attempt with that status |
| Bno.ToInt16 | main/bno.cpp:148-151 | storing a 16-bit pattern into int16_t gives the value in [-32768, 32767] congruent to it modulo 65536 |
| Bno.AxisAt | main/bno.cpp:176-178 | the LSB-first pair of bytes of axis k read as a signed 16-bit value |
| Bno.Int16RoundTrip | main/bno.cpp:176-178 | decoding the little-endian encoding of any int16 gives it back, and every two-byte pair is the encoding of its decoding |
| Bno.TruncDiv | main/bno.cpp:185-194 | division stored back into int16 truncates toward zero: the quotient's magnitude is the largest one whose multiple does not exceed the dividend's |
| Bno.Divisor | main/bno.cpp:180-198 | the scale divisor is 16 for magnetometer, gyroscope and euler, 100 for accelerometer, linear acceleration and gravity, 1 for quaternion |
| Bno.VectorAxes | main/bno.cpp:176-198 | three axes, each the decoded int16 truncated after division by 16 (mag, gyro, euler), 100 (accel, linear, gravity) or 1, staying in int16 range |
| Bno.BlockAfterRead | main/bno.cpp:169-174 | the zeroed buffer after the read keeps the read width |
| Bno.ReadVector | main/bno.cpp:167-201 | a fresh non-quaternion whose x, y, z are the scaled axes of the six bytes the read leaves in a zeroed buffer |
| Bno.ReadQuat | main/bno.cpp:139-156 | a fresh quaternion whose w, x, y, z are the four decoded int16 values times 2^-14 |
| Bno.AxisSignValue | main/bno.cpp:232-236 | the sign register value is sign shifted by the axis: zero for a positive sign, 4 for X, 2 for Y and 1 for Z when negative |
| Bno.BnoModuleQueries | main/bno.h:29-31 | IsRoot exactly when deviceId is 1000, IsTest exactly when the test name is non-empty, GetTest the stored test info |
| Bno.SetupChecksChipFirst | main/bno.cpp:45-49 | a chip id other than 0xA0 fails Setup before any operating-mode write |
| Bno.SetupAxisConfiguration | main/bno.cpp:51-80 | after a good chip id: remap SWITCH_YZ with only X negative for the chest, SHIFT_LEFT with no sign write for odd places, SHIFT_LEFT with only Y negative for even places; the operating mode ends as requested |
| Bno.ReadingNamesRoundTrip | main/bno.cpp:101-127 | the name GetReading gives maps back to the kind in stringToVector, and the mode is AMG exactly for accel, mag and gyro |
| Bno.GetReading | main/bno.cpp:93-130 | a fresh event with the node's location, the kind's name and mode, and an object that is a quaternion exactly for QUATERNION, holding the four decoded axes over 16384 of the 8-byte block read for a quaternion and the three scaled axes of the 6-byte block for any other kind; QUATERNION is the default kind |
| MeshWifi.GetWifiChannel | components/MeshWiFi/wifi.cpp:43-70 | the primary channel of the first record in scan order whose SSID is the router's, else channel 1 |
| MeshWifi.FirstQualifying | components/MeshWiFi/wifi.cpp:90-116 | the first record that qualifies: for a non-root, a mesh IE of the association's size from a MESH_ROOT; for the root, no such IE and the router's SSID |
| MeshWifi.ScanHandler | components/MeshWiFi/wifi.cpp:77-139 | flushes the results; with a parent it sets the record's authmode and a parent config with its channel, SSID, BSSID, bssid_set 1 and a password only when not open, as MESH_ROOT or MESH_LEAF at layer 1; without one it stops and restarts a passive scan showing hidden APs |
| MeshWifi.NextBitsTouchOneBit | components/MeshWiFi/wifi.cpp:147-187 | an event changes at most its own bit; only the parent events change the connected bit; child, routing-table, no-parent, scan-done and other events change nothing |
| MeshWifi.ConnectedFollowsLastParentEvent | components/MeshWiFi/wifi.cpp:167-176 | after any run of events the connected bit is set exactly when the last parent event was PARENT_CONNECTED, or was set before when there was none |
| MeshWifi.MeshEventGroup.constructor | components/MeshWiFi/wifi.cpp:198 | the event group starts with no bit set |
| MeshWifi.MeshEventGroup.MeshEventHandler | components/MeshWiFi/wifi.cpp:147-187 | applies the event's bit transition, and starts the DHCP client exactly on PARENT_CONNECTED at the root |
| MeshWifi.MeshEventGroup.WifiGetStatus | components/MeshWiFi/wifi.cpp:283-289 | CONNECTED exactly when the connected bit is set |
| MeshWifi.WifiIsMeshEnabled | components/MeshWiFi/wifi.cpp:296-299 | the mesh build always answers true |
| MeshWifi.WifiIsRootNode | components/MeshWiFi/wifi.cpp:306-309 | true exactly when the node's mesh type is MESH_ROOT |
| MeshWifi.TxTargets | components/MeshWiFi/wifi.cpp:331-347 | the root targets routing-table entries 1 onward, skipping entry 0; a leaf targets one null address |
| MeshWifi.FirstFailure | components/MeshWiFi/wifi.cpp:340-351 | the first send whose status is not ESP_OK, with all earlier ones OK, or none |
| MeshWifi.WifiMeshTxMain | components/MeshWiFi/wifi.cpp:316-354 | sends the payload to the targets in order up to and including the first failure and returns that status, else ESP_OK; the payload fits the 1460-byte buffer |
| MeshWifi.PendingAfterWait | components/MeshWiFi/wifi.cpp:375-383 | the wait ends on a polled count that reaches routing-table size minus 1, at once with 0 when nothing is awaited, and never when every poll falls short |
| MeshWifi.PendingAfterWaitIsFirst | components/MeshWiFi/wifi.cpp:375-385 | the count the wait ends on, which becomes the number of receives, is the first poll reaching routing-table size minus 1: every earlier poll fell short |
| MeshWifi.AwaitPending | components/MeshWiFi/wifi.cpp:375-383 | the root's polling loop returns the count the wait ends on |
| MeshWifi.RxEntriesShape | components/MeshWiFi/wifi.cpp:386-402 | at most one entry per slot in slot order, exactly one when no slot with data failed, each "No data!" or free of NULs |
| MeshWifi.CStringPadded | components/MeshWiFi/wifi.cpp:388-400 | a zeroed buffer reads as a C string the same whatever follows the received text's terminator |
| MeshWifi.ReceiveSlot | components/MeshWiFi/wifi.cpp:387-401 | one receive contributes "No data!" when empty, nothing when it failed, and otherwise its text up to the first NUL |
| MeshWifi.WifiMeshRxMain | components/MeshWiFi/wifi.cpp:361-405 | a leaf receives one slot; the root receives as many slots as the wait ended on, and does not return while it still waits |
| SimpleWifi.StaBitTransitions | components/SimpleWiFi/wifi.cpp:25-45 | STA_START sets only the start bit, STA_GOT_IP only the connected bit, STA_DISCONNECTED clears only the connected bit, and the others change nothing |
| SimpleWifi.StationEventGroup.constructor | components/SimpleWiFi/wifi.cpp:56 | the event group starts with no bit set |
| SimpleWifi.StationEventGroup.EventHandler | components/SimpleWiFi/wifi.cpp:25-45 | applies the event's bit transition, asks for a reconnect exactly on STA_DISCONNECTED and always returns ESP_OK |
| SimpleWifi.StationEventGroup.WifiDisconnect | components/SimpleWiFi/wifi.cpp:104-108 | clears only the connected bit, so the status becomes DISCONNECTED |
| SimpleWifi.StationEventGroup.WifiGetStatus | components/SimpleWiFi/wifi.cpp:114-120 | CONNECTED exactly when the connected bit is set |
| SimpleWifi.StationConfigReadsBack | components/SimpleWiFi/wifi.cpp:82-84 | with the unchecked copies fitting their 32 and 64-byte fields, each field holds its string followed only by NULs |
| SimpleWifi.WifiIsMeshEnabled | components/SimpleWiFi/wifi.cpp:127-130 | the station build answers false |
| SimpleWifi.WifiIsRootNode | components/SimpleWiFi/wifi.cpp:137-140 | the station build answers true |
| Rest.FormatElements | main/rest.cpp:26-48 | one element per event, in order, joined by ",\n" with no envelope and no trailing separator; each element holds quoted type, body, ticks, W only for a quaternion, then X, Y, Z |
| Rest.FormatDocument | main/rest.cpp:59-95 | the envelope around the joined elements, each extra item preceded by ",\n" |
| Rest.JoinThenExtras | main/rest.cpp:78-89 | with at least one event, the elements followed by the extras form one ",\n"-joined list of both |
| Rest.ExtrasAlone | main/rest.cpp:83-90 | with no events, the extras come out joined but preceded by one ",\n" |
| Rest.JoinWithExtras | main/rest.cpp:78-90 | the joined elements followed by the extras are the ",\n"-joined list of both, preceded by a stray ",\n" exactly when there are extras but no elements |
| Rest.DocumentShape | main/rest.cpp:59-95 | the document is the envelope around all elements and extras joined by ",\n", with a stray leading ",\n" exactly when there are no events but some extras; the item count is the sum of both |
| Rest.BuildPostHeaders | main/rest.cpp:103-115 | the request line and the Host, User-Agent, Content-Type, Content-Length and Connection lines in order, then the blank line |
| Rest.HeadersBeforeLength | main/rest.cpp:105-112 | the header text up to the length value ends with "Content-Length: " |
| Rest.PostHeadersCarryLength | main/rest.cpp:103-115 | the decimal length is the only text between the fixed prefix and the last two lines, and atoi reads it back as the length passed |
| Rest.ExtractOutcomes | main/rest.cpp:125-137 | "" when the field is absent; throws (None) exactly when the value would start past the end of the response; a returned value is never longer than the response |
| Rest.ExtractFindsValue | main/rest.cpp:125-137 | for a prefix without the field, then "field: v" with no CRLF inside v, then CRLF and anything, the value returned is v |
| Rest.SendToServer | main/rest.cpp:147-183 | a connect failure gives "7", a header send failure "8", a receive failure "9", otherwise the Response header of the received C string; the received bytes fit the 500-byte buffer with room for its terminator, so any answer is under 500 characters |
| Rest.SendFailuresCollide | main/rest.cpp:158-175 | after atoi, "7", "8" and "9" equal REST_REQUEST_LINEARA, REST_REQUEST_GRAVITY and REST_NO_WIFI |
| Rest.NoDataMarkerReadsAsOk | main/rest.cpp:234-236 | "No data!" does not contain "No data:", and the leaf reads it as REST_OK |
| Rest.StationBuildIsRoot | main/rest.cpp:204 | in the station build the root path is always taken |
| Rest.RootExchange | main/rest.cpp:204-222 | one Rx round without waiting, one post of the document of the events and the received items with its length, then the atoi of a non-empty response else REST_OK and one Tx of the response even when empty; an extractor exception ends it after the post |
| Rest.LeafExchange | main/rest.cpp:225-237 | one Tx of the joined elements, one waiting Rx round, and the result read from the first entry: atoi unless it is empty or contains "No data:"; no result (None) when Rx returned no entry, where front() is undefined |
| Rest.FailedLeafReceiveLeavesNoEntry | main/rest.cpp:231-233 | a leaf's single receive that fails after writing data gives Rx no entry, so the leaf section reads front() of an empty vector |
| Rest.CreateReading | main/rest.cpp:194-240 | disconnected: REST_NO_WIFI with no exchange; root: one Rx round without waiting, one post of the merged document with its length, the atoi of a non-empty response else REST_OK, and one Tx of the response even when empty; leaf: one Tx of its fragment, one waiting Rx, and the result read from the first entry, or None when there is none |
| MainLoop.AfterPushKeepsNewest | main/main.cpp:230-237 | a push and CheckBuffer keep a buffer of at most ten at most ten, keep the new reading last, and keep exactly the ten newest |
| MainLoop.AfterPushNewest | main/main.cpp:79-90 | pushing a reading onto the newest ten of a history gives the newest ten of the history with that reading |
| MainLoop.PushAllIsWindow | main/main.cpp:79-90 | however many readings are pushed into an empty buffer, it holds exactly the ten newest |
| MainLoop.SleepFor | main/main.cpp:92-96 | the sleep is 100 ms minus the elapsed time, or 0 once the period is used up |
| MainLoop.ParseRestErrorDispatch | main/main.cpp:139-193 | a reading is re-taken exactly for the codes 3 to 8, of the matching sensor kind and never a quaternion; every other code only logs or does nothing |
| MainLoop.ReactionsToCodesSevenToNine | main/main.cpp:167-186 | codes 7 and 8 re-read linear acceleration and gravity; code 9 logs lost WiFi |
| MainLoop.SendFailuresTriggerRereads | main/main.cpp:123-125 | a failed connect or header send at the root triggers a linear-acceleration or gravity re-read, and a failed receive is logged as lost WiFi |
| MainLoop.SampleBuffers.constructor | main/main.cpp:30 | two empty buffers; both indices start at 0 |
| MainLoop.SampleBuffers.CheckBuffer | main/main.cpp:230-237 | removes exactly the oldest reading of buffer i when it holds more than ten, and leaves the other buffer alone |
| MainLoop.SampleBuffers.SampleStep | main/main.cpp:79-90 | a free lock keeps the index and a busy one toggles it; the reading is pushed and trimmed into the chosen buffer only; the indices stay in 0 and 1 |
| MainLoop.SampleBuffers.PublishTick | main/main.cpp:113-132 | an empty buffer is left alone; otherwise it is posted once, ParseRestError runs only on a result other than REST_OK, and the buffer is cleared; the publish index always toggles |
| PartitionTool.OutputName | partitions/bnoPartitionTool.py:23-24 | the input up to its first '.', which contains no '.', followed by ".bin" |
| PartitionTool.OutputNameOfDottedDirectory | partitions/bnoPartitionTool.py:23-24 | "dir.v2/cfg.csv" gives "dir.bin": a dot in a directory cuts the name short |
| PartitionTool.OutputNameOfDotless | partitions/bnoPartitionTool.py:23-24 | a name without a dot just gains ".bin" |
| PartitionTool.OutputNameIdempotent | partitions/bnoPartitionTool.py:23-24 | applying the rule to its own output changes nothing |
| PartitionTool.IdfComponents | partitions/bnoPartitionTool.py:12 | the components directory is the IDF_PATH value, or the literal "$IDF_PATH" when it is unset, followed by "/components" (joined before expansion) |
| PartitionTool.GenerateArgv | partitions/bnoPartitionTool.py:12-31 | the interpreter, the generator at IDF_PATH + "/components/nvs_flash/nvs_partition_generator/nvs_partition_gen.py", "--input", then the CSV, "--output", the output name, "--size" and "0x3000" |
| PartitionTool.FlashArgv | partitions/bnoPartitionTool.py:12-43 | the interpreter, esptool at IDF_PATH + "/components/esptool_py/esptool/esptool.py", "--port", then the port, "write_flash", the decimal offset and the binary |
| PartitionTool.FlashOffsetIsDecimal | partitions/bnoPartitionTool.py:42 | str(0x10000) is "65536" |
| PartitionTool.Dispatch | partitions/bnoPartitionTool.py:67-70 | "generate" runs only the generator command, "flash" only the esptool command, and no command runs nothing |

## Left out

- ESP-IDF radio, mesh, TCP/IP, UART driver and event-group calls are not modelled. Their results are parameters.
- WifiInit, WifiConnect and the mesh build's WifiDisconnect are not modelled. They only hand configuration to ESP-IDF calls, and the mesh WifiDisconnect changes no state of its own. The exception is the station config fields that WifiConnect fills in.
- The busy waits of WifiConnect and the root's Rx wait are not modelled as loops that may never end. Only their exit condition is modelled: `AwaitPending` consumes a finite sequence of polls and answers None when every poll falls short.
- Concurrency is not modelled: the periodic timer task, the two mutexes and the lock order. Lock availability is an input, and each sampling pass or timer tick is one sequential step.
- main.cpp's Setup and app_main wiring are not modelled (UART init, NVS net config, timer start). Within them:
  - The reading kind the sampling loop passes to GetReading comes from a lookup of `stringToVector` keyed by the test info, which does not match that map's key type.
  - The event it stores is therefore an input (`Reading`).
- Floating point is not modelled.
  - `ReadQuat`'s 2^-14 scale is a `real`; it is exact in a double.
  - The ostringstream rendering of doubles and of the tick count is not modelled; `Reading` carries those values as already rendered text.
- `Rest.FormatElements` and `Rest.FormatDocument` read each event through a `Reading` value. The source is inconsistent here. `eventList` is a list of `SensorEvent` pointers (main/defines.h:25), yet main/rest.cpp:31-41 calls members on each element with `.`, and `SensorEvent` declares no `GetTicks`. Only main/main.cpp:153, which passes `SensorEvent` values, fits the `.` calls, and there each element would be a copy whose location was never copied. Because no single reading of the loop compiles, the name, body, ticks and values are inputs.
- Templates.ReadNvsString: the status of the second NVS string read (the one that copies the value) is ignored at main/templates.h:106; the model takes that read to yield the stored string and does not model a failure there or the uninitialised buffer it would leave.
- Socket I/O in SendToServer is not modelled. Its outcome is the `SendOutcome` input.
- Rest.LeafExchange: an Rx that returns no entry (a failed single receive, see `FailedLeafReceiveLeavesNoEntry`) makes main/rest.cpp:233 call front() on an empty vector, which is undefined behaviour; the model answers None there and does not say what the device does.
- Rest.LeafExchange: the leaf's fragment is copied into the 1460-byte mesh Tx buffer without a length check (components/MeshWiFi/wifi.cpp:329); the model assumes it fits, as `MeshWifi.WifiMeshTxMain` requires, and does not model an overflow.
- The mesh Tx and Rx calls inside CreateReading are not modelled as calls. Their results are inputs, and `steps` records the rounds made.
- ParseRestError's extra reading and single-reading post are not modelled. `RestReaction.Reread` names the sensor kind read.
- GetReading's mode-register write and the pauses of Setup, the setters and the retry loops are not modelled. Only the register writes of Setup are recorded.
- `Bno.Setup` has no contract of its own. Its properties are the lemmas `Bno.SetupChecksChipFirst` and `Bno.SetupAxisConfiguration`. The NVS read of the device config is an input.
- `Bno.BlockAfterRead`: the contract states only the buffer's width. Its contents are tied to the retry loop through `Bno.DigitalRead`'s contract.
- `Common.Atoi` does not model overflow past the int range, which C leaves undefined.
- Heap lifetime is not modelled beyond the shared pointer. The second delete of the same object is shown, but what it does is not.
- ScanHandler is modelled but unreachable in the firmware, because its only call site is commented out.
  - The 33-byte SSID copy into the 32-byte parent field is modelled as a plain SSID copy.
- `sizeof(table) * 6` passed as the routing-table capacity is not modelled. The table is an input of at most nine entries.
- The stub CRUD functions ReadReading, UpdateReading and DeleteReading are not modelled; they only return REST_OK.
- The UART and NVS wrappers in sparkfun.cpp are not part of this model.
- The partition tool's subprocess execution, argparse and the environment are not modelled. The interpreter path and IDF_PATH are inputs.
