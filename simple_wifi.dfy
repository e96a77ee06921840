/** The station-only WiFi build: its event bits, status query, disconnect, the station
    config WifiConnect fills in, and the mesh capability answers of this build. */
module SimpleWifi {
  import opened Defines
  import opened Templates

  const WIFI_START_BIT: int := 1
  const WIFI_CONNECTED_BIT: int := 2

  /** Sizes of the ssid and password fields of ESP-IDF's wifi_sta_config_t. */
  const SSID_FIELD: nat := 32
  const PASSWORD_FIELD: nat := 64

  datatype StaEvent = StaStart | StaConnected | StaGotIp | StaDisconnected | OtherStaEvent

  /** The bits the handler leaves for `e`. */
  function NextStaBits(bits: set<int>, e: StaEvent): set<int>
  {
    match e
    case StaStart => bits + {WIFI_START_BIT}
    case StaGotIp => bits + {WIFI_CONNECTED_BIT}
    case StaDisconnected => bits - {WIFI_CONNECTED_BIT}
    case _ => bits
  }

  /** STA_START sets only the start bit, STA_GOT_IP only the connected bit, STA_DISCONNECTED
      clears only the connected bit, and the other events change nothing. */
  lemma StaBitTransitions(bits: set<int>, e: StaEvent)
    ensures e == StaStart ==> NextStaBits(bits, e) - {WIFI_START_BIT} == bits - {WIFI_START_BIT} &&
                              WIFI_START_BIT in NextStaBits(bits, e)
    ensures e == StaGotIp ==> NextStaBits(bits, e) - {WIFI_CONNECTED_BIT} == bits - {WIFI_CONNECTED_BIT} &&
                              WIFI_CONNECTED_BIT in NextStaBits(bits, e)
    ensures e == StaDisconnected ==> NextStaBits(bits, e) == bits - {WIFI_CONNECTED_BIT}
    ensures e == StaConnected || e == OtherStaEvent ==> NextStaBits(bits, e) == bits
  {
  }

  /** The static event group of the station build. */
  class StationEventGroup {
    var bits: set<int>

    constructor ()
      ensures bits == {}
    {
      bits := {};
    }

    /** EventHandler: updates the bits, asks the driver to reconnect after a disconnect,
        and answers ESP_OK whatever the event. */
    method EventHandler(e: StaEvent) returns (status: int, reconnect: bool)
      modifies this
      ensures bits == NextStaBits(old(bits), e)
      ensures status == ESP_OK
      ensures reconnect <==> e == StaDisconnected
    {
      reconnect := false;
      match e {
        case StaStart => bits := bits + {WIFI_START_BIT};
        case StaConnected =>
        case StaGotIp => bits := bits + {WIFI_CONNECTED_BIT};
        case StaDisconnected =>
          reconnect := true;
          bits := bits - {WIFI_CONNECTED_BIT};
        case OtherStaEvent =>
      }
      status := ESP_OK;
    }

    /** WifiDisconnect clears the connected bit and nothing else. */
    method WifiDisconnect()
      modifies this
      ensures bits == old(bits) - {WIFI_CONNECTED_BIT}
      ensures WifiGetStatus() == Disconnected
    {
      bits := bits - {WIFI_CONNECTED_BIT};
    }

    /** WifiGetStatus: CONNECTED exactly when the connected bit is set. */
    function WifiGetStatus(): (s: WifiStatus)
      reads this
      ensures s == Connected <==> WIFI_CONNECTED_BIT in bits
    {
      if WIFI_CONNECTED_BIT in bits then Connected else Disconnected
    }
  }

  /** A fixed-size char field of a zero-initialised config after `s` is copied into it. */
  function Field(s: string, size: nat): (f: seq<char>)
    requires |s| <= size
    ensures |f| == size
  {
    s + seq(size - |s|, _ => 0 as char)
  }

  /** The ssid and password fields WifiConnect hands to the driver. The copies are
      unchecked, so the strings must fit their fields. */
  function StationConfig(sid: string, pwd: string): (config: (seq<char>, seq<char>))
    requires |sid| <= SSID_FIELD && |pwd| <= PASSWORD_FIELD
  {
    (Field(sid, SSID_FIELD), Field(pwd, PASSWORD_FIELD))
  }

  /** Each field holds its string at its start, and only NULs after it. */
  lemma StationConfigReadsBack(sid: string, pwd: string)
    requires |sid| <= SSID_FIELD && |pwd| <= PASSWORD_FIELD
    ensures var (s, p) := StationConfig(sid, pwd);
            s[..|sid|] == sid && p[..|pwd|] == pwd &&
            (forall k :: |sid| <= k < SSID_FIELD ==> s[k] == 0 as char) &&
            (forall k :: |pwd| <= k < PASSWORD_FIELD ==> p[k] == 0 as char)
  {
  }

  /** This build has no mesh: WifiIsMeshEnabled answers false and WifiIsRootNode true. */
  function WifiIsMeshEnabled(): (enabled: bool)
    ensures !enabled
  {
    false
  }

  function WifiIsRootNode(): (root: bool)
    ensures root
  {
    true
  }
}
