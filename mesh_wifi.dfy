/** The ESP-MESH node: parent selection from scan records, the mesh event bits, and the
    one-hop send (Tx) and receive (Rx) rounds. Scan records, routing tables, pending
    counts and send/receive results are inputs; the radio itself is not modelled. */
module MeshWifi {
  import opened Common
  import opened Defines
  import opened Templates

  const RX_SIZE: nat := 1500
  const TX_SIZE: nat := 1460
  const MAX_NODES: nat := 8
  const ADD_ROOT: nat := 1
  const MESH_ID: seq<byte> := [0x7A, 0x69, 0xDE, 0xAD, 0xBE, 0xEF]

  /** ESP-IDF values the node compares against (defined by ESP-IDF's esp_wifi and esp_mesh
      headers, which are not part of this model). */
  const WIFI_AUTH_OPEN: int := 0
  const MESH_ROOT_LAYER: int := 1

  /** The text Rx reports for a slot that received nothing. */
  const NO_DATA: string := "No data!"

  datatype MeshType = MeshIdle | MeshRoot | MeshNode | MeshLeaf

  /** The mesh association IE of a scanned access point. */
  datatype MeshAssoc = MeshAssoc(meshType: MeshType, layer: int, meshId: seq<byte>)

  /** A scanned access point: its SSID (up to the NUL), channel, BSSID, auth mode, the
      length of its mesh IE and the IE itself. */
  datatype ApRecord = ApRecord(ssid: string, primary: byte, bssid: seq<byte>, authmode: int,
                               ieLen: int, assoc: MeshAssoc)

  // ---------------------------------------------------------------------------------------
  // GetWifiChannel

  /** The first record, in scan order, whose SSID is `ssid`. */
  function FirstSsidMatch(records: seq<ApRecord>, ssid: string): (r: Option<nat>)
    ensures r.Some? ==> r.value < |records| && records[r.value].ssid == ssid
    ensures r.Some? ==> forall k :: 0 <= k < r.value ==> records[k].ssid != ssid
    ensures r.None? ==> forall k :: 0 <= k < |records| ==> records[k].ssid != ssid
  {
    if records == [] then None
    else if records[0].ssid == ssid then Some(0)
    else match FirstSsidMatch(records[1..], ssid)
      case None => None
      case Some(k) => Some(k + 1)
  }

  /** GetWifiChannel: the channel of the first scanned access point named like the router,
      or channel 1 when there is none. */
  method GetWifiChannel(records: seq<ApRecord>, routerSsid: string) returns (channel: byte)
    ensures FirstSsidMatch(records, routerSsid).Some? ==>
              channel == records[FirstSsidMatch(records, routerSsid).value].primary
    ensures FirstSsidMatch(records, routerSsid).None? ==> channel == 1
  {
    var i := 0;
    while i < |records|
      invariant 0 <= i <= |records|
      invariant forall k :: 0 <= k < i ==> records[k].ssid != routerSsid
    {
      if records[i].ssid == routerSsid {
        return records[i].primary;
      }
      i := i + 1;
    }
    return 1;
  }

  // ---------------------------------------------------------------------------------------
  // ScanHandler

  /** Whether record `r` makes a parent: for a non-root node, a mesh IE of the expected
      size from a mesh root; for the root, no such IE and the router's SSID. */
  predicate Qualifies(r: ApRecord, isRoot: bool, routerSsid: string, assocSize: int)
  {
    if r.ieLen == assocSize && !isRoot then r.assoc.meshType == MeshRoot
    else if r.ieLen != assocSize && isRoot then r.ssid == routerSsid
    else false
  }

  function FirstQualifying(records: seq<ApRecord>, isRoot: bool, routerSsid: string, assocSize: int): (r: Option<nat>)
    ensures r.Some? ==> r.value < |records| && Qualifies(records[r.value], isRoot, routerSsid, assocSize)
    ensures r.Some? ==> forall k :: 0 <= k < r.value ==> !Qualifies(records[k], isRoot, routerSsid, assocSize)
    ensures r.None? ==> forall k :: 0 <= k < |records| ==> !Qualifies(records[k], isRoot, routerSsid, assocSize)
  {
    if records == [] then None
    else if Qualifies(records[0], isRoot, routerSsid, assocSize) then Some(0)
    else match FirstQualifying(records[1..], isRoot, routerSsid, assocSize)
      case None => None
      case Some(k) => Some(k + 1)
  }

  /** The station config handed to esp_mesh_set_parent. */
  datatype StaConfig = StaConfig(channel: byte, ssid: string, bssid: seq<byte>, bssidSet: int, password: string)

  /** The radio calls ScanHandler makes, in order. */
  datatype ScanAction =
    | FlushScanResult
    | SetApAuthmode(mode: int)
    | SetParent(config: StaConfig, meshId: seq<byte>, meshType: MeshType, layer: int)
    | ScanStop
    | ScanStart(showHidden: bool, passive: bool)

  /** ScanHandler(num): walks the records in order and takes the first that qualifies.
      With a parent, the parent config takes its channel, SSID and BSSID, and the password
      (the router's for the root, the mesh AP's for a leaf) unless the AP is open; the
      mesh id passed is the one of the copied association (all zeroes for the root).
      Without one, a passive scan showing hidden APs is started again. */
  method ScanHandler(records: seq<ApRecord>, isRoot: bool, routerSsid: string, routerPswd: string,
                     meshApPasswd: string, assocSize: int)
    returns (actions: seq<ScanAction>)
    requires |routerPswd| <= 64 && |meshApPasswd| <= 64
    ensures var found := FirstQualifying(records, isRoot, routerSsid, assocSize);
            found.None? ==> actions == [FlushScanResult, ScanStop, ScanStart(true, true)]
    ensures var found := FirstQualifying(records, isRoot, routerSsid, assocSize);
            found.Some? ==>
              var rec := records[found.value];
              var meshType := if isRoot then MeshRoot else MeshLeaf;
              var password := if rec.authmode == WIFI_AUTH_OPEN then ""
                              else if isRoot then routerPswd else meshApPasswd;
              actions == [FlushScanResult, SetApAuthmode(rec.authmode),
                          SetParent(StaConfig(rec.primary, rec.ssid, rec.bssid, 1, password),
                                    if isRoot then seq(6, _ => 0) else rec.assoc.meshId,
                                    meshType, 1)]
  {
    var parentFound := false;
    var myLayer := 0;
    var myType := MeshIdle;
    var parentAssoc := MeshAssoc(MeshIdle, 0, seq(6, _ => 0));
    var parentRecord := ApRecord("", 0, seq(6, _ => 0), 0, 0, parentAssoc);
    var i := 0;
    while i < |records|
      invariant 0 <= i <= |records|
      invariant forall k :: 0 <= k < i ==> !Qualifies(records[k], isRoot, routerSsid, assocSize)
      invariant !parentFound && parentAssoc == MeshAssoc(MeshIdle, 0, seq(6, _ => 0))
    {
      var record := records[i];
      if record.ieLen == assocSize && !isRoot {
        if record.assoc.meshType == MeshRoot {
          parentFound := true;
          myType := MeshLeaf;
          myLayer := parentAssoc.layer + 1;
          parentRecord := record;
          parentAssoc := record.assoc;
          break;
        }
      } else if record.ieLen != assocSize && isRoot {
        if record.ssid == routerSsid {
          parentFound := true;
          myType := MeshRoot;
          myLayer := MESH_ROOT_LAYER;
          parentRecord := record;
          break;
        }
      }
      i := i + 1;
    }
    actions := [FlushScanResult];
    if parentFound {
      var password := "";
      if parentRecord.authmode != WIFI_AUTH_OPEN {
        password := if myType == MeshRoot then routerPswd else meshApPasswd;
      }
      var parent := StaConfig(parentRecord.primary, parentRecord.ssid, parentRecord.bssid, 1, password);
      actions := actions + [SetApAuthmode(parentRecord.authmode),
                            SetParent(parent, parentAssoc.meshId, myType, myLayer)];
    } else {
      actions := actions + [ScanStop, ScanStart(true, true)];
    }
  }

  // ---------------------------------------------------------------------------------------
  // Mesh events

  const MESH_START_BIT: int := 1
  const MESH_CONNECTED_BIT: int := 2
  const MESH_ROOT_GOT_IP_BIT: int := 4

  datatype MeshEvent =
    | Started | Stopped | ChildConnected | RoutingTableAdd | NoParentFound
    | ParentConnected | ParentDisconnected | RootGotIp | ScanDone(number: int) | OtherEvent

  /** The bits the handler leaves for `e`: STARTED and STOPPED set and clear the start bit,
      PARENT_CONNECTED and PARENT_DISCONNECTED the connected bit, ROOT_GOT_IP sets the got-IP
      bit (then falls through to SCAN_DONE, which only logs); the rest only log. */
  function NextBits(bits: set<int>, e: MeshEvent): set<int>
  {
    match e
    case Started => bits + {MESH_START_BIT}
    case Stopped => bits - {MESH_START_BIT}
    case ParentConnected => bits + {MESH_CONNECTED_BIT}
    case ParentDisconnected => bits - {MESH_CONNECTED_BIT}
    case RootGotIp => bits + {MESH_ROOT_GOT_IP_BIT}
    case _ => bits
  }

  /** Every event touches at most one bit, and only the three named transitions change the
      connected bit. */
  lemma NextBitsTouchOneBit(bits: set<int>, e: MeshEvent)
    ensures forall b :: b != MESH_START_BIT && b != MESH_CONNECTED_BIT && b != MESH_ROOT_GOT_IP_BIT ==>
              (b in NextBits(bits, e) <==> b in bits)
    ensures e !in {ParentConnected, ParentDisconnected} ==>
              (MESH_CONNECTED_BIT in NextBits(bits, e) <==> MESH_CONNECTED_BIT in bits)
    ensures e.ChildConnected? || e.RoutingTableAdd? || e.NoParentFound? || e.ScanDone? || e.OtherEvent? ==>
              NextBits(bits, e) == bits
  {
  }

  /** The events in order, applied to the bits. */
  function BitsAfter(bits: set<int>, events: seq<MeshEvent>): set<int>
    decreases |events|
  {
    if events == [] then bits else BitsAfter(NextBits(bits, events[0]), events[1..])
  }

  /** The connected bit after a run of events is set exactly when the last parent event
      was PARENT_CONNECTED, or, with no parent event, when it was set before. */
  function LastParentEvent(events: seq<MeshEvent>): Option<MeshEvent>
  {
    if events == [] then None
    else if events[|events| - 1] in {ParentConnected, ParentDisconnected} then Some(events[|events| - 1])
    else LastParentEvent(events[..|events| - 1])
  }

  lemma {:induction false} BitsAfterAppend(bits: set<int>, events: seq<MeshEvent>, e: MeshEvent)
    ensures BitsAfter(bits, events + [e]) == NextBits(BitsAfter(bits, events), e)
    decreases |events|
  {
    if events != [] {
      assert (events + [e])[1..] == events[1..] + [e];
      BitsAfterAppend(NextBits(bits, events[0]), events[1..], e);
    } else {
      assert ([] + [e])[1..] == [];
    }
  }

  lemma {:induction false} ConnectedFollowsLastParentEvent(bits: set<int>, events: seq<MeshEvent>)
    ensures MESH_CONNECTED_BIT in BitsAfter(bits, events) <==>
              (if LastParentEvent(events).Some? then LastParentEvent(events) == Some(ParentConnected)
               else MESH_CONNECTED_BIT in bits)
    decreases |events|
  {
    if events != [] {
      var init := events[..|events| - 1];
      var e := events[|events| - 1];
      assert init + [e] == events;
      BitsAfterAppend(bits, init, e);
      ConnectedFollowsLastParentEvent(bits, init);
    }
  }

  /** The event group shared by the mesh event handler and the rest of the firmware. */
  class MeshEventGroup {
    var bits: set<int>

    constructor ()
      ensures bits == {}
    {
      bits := {};
    }

    /** MeshEventHandler: updates the bits; a PARENT_CONNECTED event on the root also
        starts the DHCP client, which is reported. */
    method MeshEventHandler(e: MeshEvent, isRoot: bool) returns (dhcpStarted: bool)
      modifies this
      ensures bits == NextBits(old(bits), e)
      ensures dhcpStarted <==> e == ParentConnected && isRoot
    {
      dhcpStarted := false;
      match e {
        case Started => bits := bits + {MESH_START_BIT};
        case Stopped => bits := bits - {MESH_START_BIT};
        case ParentConnected =>
          if isRoot {
            dhcpStarted := true;
          }
          bits := bits + {MESH_CONNECTED_BIT};
        case ParentDisconnected => bits := bits - {MESH_CONNECTED_BIT};
        case RootGotIp => bits := bits + {MESH_ROOT_GOT_IP_BIT};
        case _ =>
      }
    }

    /** WifiGetStatus: CONNECTED exactly when the connected bit is set. */
    function WifiGetStatus(): (s: WifiStatus)
      reads this
      ensures s == Connected <==> MESH_CONNECTED_BIT in bits
    {
      if MESH_CONNECTED_BIT in bits then Connected else Disconnected
    }
  }

  /** WifiIsMeshEnabled answers true; WifiIsRootNode asks whether the node's mesh type is
      MESH_ROOT. */
  function WifiIsMeshEnabled(): (enabled: bool)
    ensures enabled
  {
    true
  }

  function WifiIsRootNode(current: MeshType): (root: bool)
    ensures root <==> current.MeshRoot?
  {
    current == MeshRoot
  }

  // ---------------------------------------------------------------------------------------
  // Tx

  type MeshAddr = seq<byte>

  /** One esp_mesh_send call: the destination (None for the NULL address that means the
      parent), the payload, whether the root's HTTP protocol was used, and whether the
      P2P flag was set. */
  datatype Send = Send(to: Option<MeshAddr>, payload: string, httpProto: bool, p2p: bool)

  /** The destinations Tx sends to: the root skips entry 0 (itself) of its routing table; a
      leaf sends once, to its parent. */
  function TxTargets(isRoot: bool, table: seq<MeshAddr>): (t: seq<Option<MeshAddr>>)
    ensures isRoot ==> |t| == (if |table| == 0 then 0 else |table| - 1) &&
                       forall k :: 0 <= k < |t| ==> t[k] == Some(table[k + 1])
    ensures !isRoot ==> t == [None]
  {
    if !isRoot then [None]
    else if |table| == 0 then []
    else seq(|table| - 1, k requires 0 <= k < |table| - 1 => Some(table[k + 1]))
  }

  /** The first send among the first `n` that did not return ESP_OK. */
  function FirstFailure(results: seq<int>, n: nat): (r: Option<nat>)
    requires n <= |results|
    ensures r.Some? ==> r.value < n && results[r.value] != ESP_OK
    ensures r.Some? ==> forall k :: 0 <= k < r.value ==> results[k] == ESP_OK
    ensures r.None? ==> forall k :: 0 <= k < n ==> results[k] == ESP_OK
  {
    if n == 0 then None
    else match FirstFailure(results, n - 1)
      case Some(k) => Some(k)
      case None => if results[n - 1] != ESP_OK then Some(n - 1) else None
  }

  /** WifiMeshTxMain(data): sends `data` to every target in order and returns the first
      status that is not ESP_OK, without trying the remaining targets; ESP_OK if all
      succeed. `sendResults[k]` is the status of the k-th send. The payload is copied into
      a TX_SIZE buffer without a check, so it must fit. */
  method WifiMeshTxMain(data: string, isRoot: bool, table: seq<MeshAddr>, sendResults: seq<int>)
    returns (result: int, sends: seq<Send>)
    requires |data| <= TX_SIZE
    requires |table| <= MAX_NODES + ADD_ROOT
    requires |TxTargets(isRoot, table)| <= |sendResults|
    ensures var targets := TxTargets(isRoot, table);
            var n := match FirstFailure(sendResults, |targets|) case Some(k) => k + 1 case None => |targets|;
            |sends| == n &&
            (forall k :: 0 <= k < n ==> sends[k] == Send(targets[k], data, isRoot, isRoot)) &&
            result == match FirstFailure(sendResults, |targets|) case Some(k) => sendResults[k] case None => ESP_OK
  {
    ghost var targets := TxTargets(isRoot, table);
    var tableSize := 0;
    if isRoot {
      tableSize := |table|;
    }
    if !isRoot {
      tableSize := tableSize + 1;
    }
    sends := [];
    var i := 0;
    while i < tableSize
      invariant 0 <= i <= tableSize
      invariant tableSize == if isRoot then |table| else 1
      invariant |sends| == (if isRoot && i > 0 then i - 1 else i)
      invariant FirstFailure(sendResults, |sends|) == None
      invariant forall k :: 0 <= k < |sends| ==> sends[k] == Send(targets[k], data, isRoot, isRoot)
    {
      if isRoot && i == 0 {
        i := i + 1;
        continue;
      }
      var to := if isRoot then Some(table[i]) else None;
      result := sendResults[|sends|];
      sends := sends + [Send(to, data, isRoot, isRoot)];
      if result != ESP_OK {
        return;
      }
      i := i + 1;
    }
    result := ESP_OK;
  }

  // ---------------------------------------------------------------------------------------
  // Rx

  /** What one esp_mesh_recv call delivered: its status and the bytes written into the
      buffer (rxData.size is their count). */
  datatype RecvSlot = RecvSlot(result: int, data: seq<byte>)

  /** The received bytes fit the RX_SIZE buffer and leave a NUL after the text (the buffer
      is read as a C string). */
  predicate SlotFits(s: RecvSlot)
  {
    |s.data| < RX_SIZE || (|s.data| == RX_SIZE && 0 in s.data)
  }

  /** The entry a slot contributes: "No data!" for an empty slot whatever its status,
      nothing for a failed one, else its text up to the first NUL. */
  function SlotEntry(s: RecvSlot): seq<string>
  {
    if |s.data| == 0 then [NO_DATA]
    else if s.result != ESP_OK then []
    else [Latin1(CString(s.data))]
  }

  function RxEntries(slots: seq<RecvSlot>): seq<string>
  {
    if slots == [] then [] else RxEntries(slots[..|slots| - 1]) + SlotEntry(slots[|slots| - 1])
  }

  /** Rx returns at most one entry per slot, exactly one when no slot with data failed,
      and every entry is "No data!" or free of NUL characters. */
  lemma {:induction false} RxEntriesShape(slots: seq<RecvSlot>)
    ensures |RxEntries(slots)| <= |slots|
    ensures (forall k :: 0 <= k < |slots| ==> slots[k].result == ESP_OK || |slots[k].data| == 0) ==>
              |RxEntries(slots)| == |slots|
    ensures forall e :: e in RxEntries(slots) ==> e == NO_DATA || 0 as char !in e
  {
    if slots != [] {
      RxEntriesShape(slots[..|slots| - 1]);
      var last := slots[|slots| - 1];
      if |last.data| > 0 && last.result == ESP_OK {
        var text := Latin1(CString(last.data));
        assert forall i :: 0 <= i < |text| ==> text[i] != 0 as char;
      }
    }
  }

  /** A NUL-terminated buffer reads the same whatever follows its terminator. */
  lemma {:induction false} CStringPadded(d: seq<byte>, z: seq<byte>)
    requires 0 in d || (|z| > 0 && z[0] == 0)
    ensures CString(d + z) == CString(d)
  {
    if d != [] && d[0] != 0 {
      assert (d + z)[1..] == d[1..] + z;
      CStringPadded(d[1..], z);
    }
  }

  /** The number of messages the root finds pending once its wait ends: the first polled
      value that reaches routingTableSize - 1, or 0 when there is nothing to wait for.
      None: every poll fell short and the root would still be waiting. */
  function PendingAfterWait(routingTableSize: int, polls: seq<int>): (r: Option<int>)
    ensures r.Some? && routingTableSize - 1 > 0 ==> r.value in polls && r.value >= routingTableSize - 1
    ensures routingTableSize - 1 <= 0 ==> r == Some(0)
    ensures r.None? ==> forall k :: 0 <= k < |polls| ==> polls[k] < routingTableSize - 1
  {
    if routingTableSize - 1 <= 0 then Some(0)
    else if polls == [] then None
    else if polls[0] >= routingTableSize - 1 then Some(polls[0])
    else PendingAfterWait(routingTableSize, polls[1..])
  }

  /** The wait ends on the FIRST poll that reaches routingTableSize - 1: every earlier poll
      fell short. */
  lemma {:induction false} PendingAfterWaitIsFirst(routingTableSize: int, polls: seq<int>)
    ensures var r := PendingAfterWait(routingTableSize, polls);
            r.Some? && routingTableSize - 1 > 0 ==>
              exists k :: 0 <= k < |polls| && polls[k] == r.value &&
                          forall j :: 0 <= j < k ==> polls[j] < routingTableSize - 1
  {
    var r := PendingAfterWait(routingTableSize, polls);
    if r.Some? && routingTableSize - 1 > 0 && polls[0] < routingTableSize - 1 {
      PendingAfterWaitIsFirst(routingTableSize, polls[1..]);
      var k :| 0 <= k < |polls[1..]| && polls[1..][k] == r.value &&
               forall j :: 0 <= j < k ==> polls[1..][j] < routingTableSize - 1;
      assert forall j :: 1 <= j < k + 1 ==> polls[j] == polls[1..][j - 1];
      assert polls[k + 1] == r.value;
    } else if r.Some? && routingTableSize - 1 > 0 {
      assert polls[0] == r.value;
    }
  }

  /** The root's wait before receiving: polls the pending count until it covers every
      other node of the routing table. */
  method AwaitPending(routingTableSize: int, polls: seq<int>) returns (toSelf: Option<int>)
    ensures toSelf == PendingAfterWait(routingTableSize, polls)
  {
    var pending := 0;
    var target := routingTableSize - 1;
    var k := 0;
    while pending < target
      invariant 0 <= k <= |polls|
      invariant pending < target ==> target > 0
      invariant pending < target ==> PendingAfterWait(routingTableSize, polls) == PendingAfterWait(routingTableSize, polls[k..])
      invariant pending >= target ==> PendingAfterWait(routingTableSize, polls) == Some(pending)
      decreases |polls| - k, if pending < target then 1 else 0
    {
      if k == |polls| {
        return None;
      }
      assert polls[k..][0] == polls[k] && polls[k..][1..] == polls[k + 1..];
      pending := polls[k];
      k := k + 1;
    }
    return Some(pending);
  }

  /** WifiMeshRxMain(timeout): the root first waits for its pending count, then receives
      that many times; a leaf receives once. Each receive zeroes the buffer first.
      None: the root is still waiting. */
  method WifiMeshRxMain(isRoot: bool, routingTableSize: int, polls: seq<int>, slots: seq<RecvSlot>)
    returns (response: Option<seq<string>>)
    requires forall k :: 0 <= k < |slots| ==> SlotFits(slots[k])
    requires 1 <= |slots| && forall k :: 0 <= k < |polls| ==> polls[k] <= |slots|
    ensures !isRoot ==> response == Some(RxEntries(slots[..1]))
    ensures isRoot && PendingAfterWait(routingTableSize, polls).None? ==> response.None?
    ensures isRoot && PendingAfterWait(routingTableSize, polls).Some? ==>
              var bound := PendingAfterWait(routingTableSize, polls).value;
              0 <= bound <= |slots| && response == Some(RxEntries(slots[..bound]))
  {
    var bound := 1;
    if isRoot {
      var pending := AwaitPending(routingTableSize, polls);
      if pending.None? {
        return None;
      }
      bound := pending.value;
    }
    var rxBuf := new byte[RX_SIZE];
    var entries: seq<string> := [];
    var i := 0;
    while i < bound
      invariant 0 <= i <= bound <= |slots|
      invariant entries == RxEntries(slots[..i])
    {
      var entry := ReceiveSlot(rxBuf, slots[i]);
      assert slots[..i + 1][..i] == slots[..i];
      entries := entries + entry;
      i := i + 1;
    }
    response := Some(entries);
  }

  /** One receive of WifiMeshRxMain's loop: zero the buffer, receive into it, then
      record "No data!" for an empty receive, skip a failed one, or take the buffer's text
      up to the first NUL. */
  method ReceiveSlot(rxBuf: array<byte>, slot: RecvSlot) returns (entry: seq<string>)
    requires rxBuf.Length == RX_SIZE && SlotFits(slot)
    modifies rxBuf
    ensures entry == SlotEntry(slot)
  {
    ZeroMemory(rxBuf, RX_SIZE);
    forall j | 0 <= j < |slot.data| {
      rxBuf[j] := slot.data[j];
    }
    if |slot.data| == 0 {
      return [NO_DATA];
    } else if slot.result != ESP_OK {
      return [];
    }
    assert rxBuf[..] == slot.data + rxBuf[|slot.data|..];
    CStringPadded(slot.data, rxBuf[|slot.data|..]);
    entry := [Latin1(CString(rxBuf[..]))];
  }
}
