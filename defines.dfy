/** Constants, enumerations, lookup tables and the Quaternion value holder of the firmware. */
module Defines {
  import opened Common

  // ---------------------------------------------------------------------------------------
  // HTTP header templates. HOST and LENG carry an empty value that BuildPostHeaders fills in.

  const POST: string := "POST /createReading HTTP/1.1\r\n"
  const HOST: string := "Host: \r\n"
  const USER: string := "User-Agent: ESP32\r\n"
  const TYPE: string := "Content-Type: application/json\r\n"
  const LENG: string := "Content-Length: \r\n"
  const CONN: string := "Connection: Closed\r\n"
  const NEWL: string := "\r\n"

  /** Where BuildPostHeaders inserts "SRV:PORT" into HOST and the length into LENG. */
  const HOST_INSERT_AT: nat := 6
  const LENG_INSERT_AT: nat := 16

  /** Both insertion points sit right after the field name and before the line's CRLF. */
  lemma InsertionPointsPrecedeCrlf()
    ensures HOST_INSERT_AT <= |HOST| && HOST[..HOST_INSERT_AT] == "Host: " && HOST[HOST_INSERT_AT..] == "\r\n"
    ensures LENG_INSERT_AT <= |LENG| && LENG[..LENG_INSERT_AT] == "Content-Length: " && LENG[LENG_INSERT_AT..] == "\r\n"
  {
  }

  // ---------------------------------------------------------------------------------------
  // Device constants

  const BNO_ID: byte := 0xA0
  const DEVICE_ID_ROOT: int := 1000

  // ---------------------------------------------------------------------------------------
  // rerror: codes exchanged with the REST server. The type is a C enum, so any int that
  // atoi produces can be cast to it; the model keeps it as int.

  const REST_FAIL: int := -0x01
  const REST_OK: int := 0x00
  const REST_CONNECT_FAIL: int := 0x01
  const REST_WRITE_FAIL: int := 0x02
  const REST_REQUEST_ACCEL: int := 0x03
  const REST_REQUEST_MAG: int := 0x04
  const REST_REQUEST_GYRO: int := 0x05
  const REST_REQUEST_EULER: int := 0x06
  const REST_REQUEST_LINEARA: int := 0x07
  const REST_REQUEST_GRAVITY: int := 0x08
  const REST_NO_WIFI: int := 0x09
  const REST_MQTT_ERROR: int := 0x0A

  /** The enumerators of rerror in declaration order. */
  function RestCodes(): (codes: seq<int>)
    ensures |codes| == 12
  {
    [REST_FAIL, REST_OK, REST_CONNECT_FAIL, REST_WRITE_FAIL, REST_REQUEST_ACCEL, REST_REQUEST_MAG,
     REST_REQUEST_GYRO, REST_REQUEST_EULER, REST_REQUEST_LINEARA, REST_REQUEST_GRAVITY,
     REST_NO_WIFI, REST_MQTT_ERROR]
  }

  /** No two rerror enumerators share a value; the per-sensor request codes are 3..8. */
  lemma RestCodesDistinct()
    ensures forall i, j :: 0 <= i < j < |RestCodes()| ==> RestCodes()[i] != RestCodes()[j]
    ensures REST_REQUEST_ACCEL == 3 && REST_REQUEST_MAG == 4 && REST_REQUEST_GYRO == 5
    ensures REST_REQUEST_EULER == 6 && REST_REQUEST_LINEARA == 7 && REST_REQUEST_GRAVITY == 8
  {
  }

  datatype WifiStatus = Connected | Disconnected

  // ---------------------------------------------------------------------------------------
  // BNO055 registers, modes and axis configuration values (the ones the firmware uses)

  const BNO_CHIP_ID_ADDR: byte := 0x00
  const BNO_PAGE_ID_ADDR: byte := 0x07
  const BNO_ACCEL_DATA_X_LSB_ADDR: byte := 0x08
  const BNO_MAG_DATA_X_LSB_ADDR: byte := 0x0E
  const BNO_GYRO_DATA_X_LSB_ADDR: byte := 0x14
  const BNO_EULER_H_LSB_ADDR: byte := 0x1A
  const BNO_QUATERNION_DATA_W_LSB_ADDR: byte := 0x20
  const BNO_LINEAR_ACCEL_DATA_X_LSB_ADDR: byte := 0x28
  const BNO_GRAVITY_DATA_X_LSB_ADDR: byte := 0x2E
  const BNO_TEMP_ADDR: byte := 0x34
  const BNO_OPR_MODE_ADDR: byte := 0x3D
  const BNO_PWR_MODE_ADDR: byte := 0x3E
  const BNO_SYS_TRIGGER_ADDR: byte := 0x3F
  const BNO_AXIS_MAP_CONFIG_ADDR: byte := 0x41
  const BNO_AXIS_MAP_SIGN_ADDR: byte := 0x42

  const POWER_MODE_NORMAL: byte := 0x00

  const OPMODE_CONFIG: byte := 0x00
  const OPMODE_AMG: byte := 0x07
  const OPMODE_NDOF: byte := 0x0C

  /** bnoAxis: the bit position of an axis in the axis-sign register. */
  const AXIS_Z: nat := 0x00
  const AXIS_Y: nat := 0x01
  const AXIS_X: nat := 0x02

  const REMAP_SHIFT_LEFT: byte := 0x12
  const REMAP_SHIFT_RIGHT: byte := 0x09
  const REMAP_SWITCH_XY: byte := 0x21
  const REMAP_SWITCH_YZ: byte := 0x18
  const REMAP_SWITCH_ZX: byte := 0x06

  const REMAP_AXIS_POSITIVE: nat := 0x00
  const REMAP_AXIS_NEGATIVE: nat := 0x01

  // ---------------------------------------------------------------------------------------
  // devLocation: where on the body a node is worn

  const LOC_CHEST: byte := 0x00
  const LOC_RIGHT_ARM_UPPER: byte := 0x01
  const LOC_LEFT_ARM_UPPER: byte := 0x02
  const LOC_RIGHT_ARM_LOWER: byte := 0x03
  const LOC_LEFT_ARM_LOWER: byte := 0x04
  const LOC_RIGHT_THIGH: byte := 0x05
  const LOC_LEFT_THIGH: byte := 0x06
  const LOC_RIGHT_SHIN: byte := 0x07
  const LOC_LEFT_SHIN: byte := 0x08

  const locationToString: map<byte, string> := map[
    LOC_CHEST := "Chest",
    LOC_RIGHT_ARM_UPPER := "RightArmUpper",
    LOC_LEFT_ARM_UPPER := "LeftArmUpper",
    LOC_RIGHT_ARM_LOWER := "RightArmLower",
    LOC_LEFT_ARM_LOWER := "LeftArmLower",
    LOC_RIGHT_THIGH := "RightThigh",
    LOC_LEFT_THIGH := "LeftThigh",
    LOC_RIGHT_SHIN := "RightShin",
    LOC_LEFT_SHIN := "LeftShin"
  ]

  predicate HasPrefix(s: string, p: string) { |p| <= |s| && s[..|p|] == p }

  /** locationToString names exactly the locations 0..8, no two alike. */
  lemma LocationTableTotalInjective()
    ensures forall l: byte :: l in locationToString <==> l <= 8
    ensures forall a, b :: a in locationToString && b in locationToString && a != b ==>
              locationToString[a] != locationToString[b]
  {
    forall l: byte | l <= 8 ensures l in locationToString {
      assert l == 0 || l == 1 || l == 2 || l == 3 || l == 4 || l == 5 || l == 6 || l == 7 || l == 8;
    }
  }

  /** The body side a location's name announces. */
  function SideOfName(name: string): (side: int)
  {
    if HasPrefix(name, "Right") then 1 else if HasPrefix(name, "Left") then 2 else 0
  }

  /** The chest is 0, the right-side locations are the odd codes and the left-side ones
      the even non-zero codes. */
  lemma LocationSides()
    ensures locationToString[LOC_CHEST] == "Chest"
    ensures forall l :: l in locationToString ==>
              SideOfName(locationToString[l]) == (if l == 0 then 0 else if l % 2 == 1 then 1 else 2)
  {
    forall l | l in locationToString
      ensures SideOfName(locationToString[l]) == (if l == 0 then 0 else if l % 2 == 1 then 1 else 2)
    {
      var name := locationToString[l];
      if l == 0 {
        assert name[0] == 'C';
      } else if l % 2 == 1 {
        assert name[..5] == "Right";
      } else {
        assert name[0] == 'L' && name[..4] == "Left";
      }
    }
  }

  // ---------------------------------------------------------------------------------------
  // bnoVectorType: each kind of reading is identified by its first data register.

  datatype VectorType = Accelerometer | Magnetometer | Gyroscope | Euler | QuaternionData | LinearAccel | Gravity
  {
    /** The enumerator's value: the address of the kind's first data register. */
    function Code(): (r: byte)
    {
      match this
      case Accelerometer => BNO_ACCEL_DATA_X_LSB_ADDR
      case Magnetometer => BNO_MAG_DATA_X_LSB_ADDR
      case Gyroscope => BNO_GYRO_DATA_X_LSB_ADDR
      case Euler => BNO_EULER_H_LSB_ADDR
      case QuaternionData => BNO_QUATERNION_DATA_W_LSB_ADDR
      case LinearAccel => BNO_LINEAR_ACCEL_DATA_X_LSB_ADDR
      case Gravity => BNO_GRAVITY_DATA_X_LSB_ADDR
    }

    /** Bytes in the kind's data block: three int16 axes, four for a quaternion. */
    function Width(): nat
    {
      if QuaternionData? then 8 else 6
    }
  }

  /** The data blocks of the seven kinds are disjoint and lie below the temperature
      register; in particular the codes are pairwise distinct. */
  lemma VectorBlocksDisjoint()
    ensures Accelerometer.Code() == 0x08 && QuaternionData.Code() == 0x20
    ensures forall a: VectorType, b: VectorType :: a != b ==>
              a.Code() as int + a.Width() <= b.Code() as int || b.Code() as int + b.Width() <= a.Code() as int
    ensures forall a: VectorType :: a.Code() as int + a.Width() <= BNO_TEMP_ADDR as int
  {
  }

  const vectorToString: map<VectorType, string> := map[
    Accelerometer := "Accel",
    Magnetometer := "Mag",
    Gyroscope := "Gyro",
    Euler := "Euler",
    LinearAccel := "LinearAccel",
    Gravity := "Gravity"
  ]

  const stringToVector: map<string, VectorType> := map[
    "Accel" := Accelerometer,
    "Mag" := Magnetometer,
    "Gyro" := Gyroscope,
    "Euler" := Euler,
    "Quaternion" := QuaternionData,
    "LinearAccel" := LinearAccel,
    "Gravity" := Gravity
  ]

  /** stringToVector maps every name vectorToString gives back to its kind. */
  lemma VectorNamesRoundTrip()
    ensures forall k :: k in vectorToString ==>
              vectorToString[k] in stringToVector && stringToVector[vectorToString[k]] == k
  {
  }

  /** QUATERNION is named in stringToVector but has no entry in vectorToString; every other
      kind has one. */
  lemma QuaternionNamedOneWay()
    ensures QuaternionData !in vectorToString
    ensures "Quaternion" in stringToVector && stringToVector["Quaternion"] == QuaternionData
    ensures forall k: VectorType :: k != QuaternionData ==> k in vectorToString
  {
  }

  // ---------------------------------------------------------------------------------------
  // Quaternion: holds a vector (x, y, z) or a quaternion (w, x, y, z) reading.

  class Quaternion {
    const w: real
    const x: real
    const y: real
    const z: real
    const isQuaternion: bool

    /** The three-argument constructor: a vector reading; w is left unset. */
    constructor Vector(x0: real, y0: real, z0: real)
      ensures x == x0 && y == y0 && z == z0 && !isQuaternion
    {
      x, y, z := x0, y0, z0;
      isQuaternion := false;
    }

    /** The four-argument constructor: a quaternion reading. */
    constructor Full(w0: real, x0: real, y0: real, z0: real)
      ensures w == w0 && x == x0 && y == y0 && z == z0 && isQuaternion
    {
      w, x, y, z := w0, x0, y0, z0;
      isQuaternion := true;
    }
  }
}
