/** The byte-buffer helpers, the membership test and the NVS read wrappers of templates.h. */
module Templates {
  import opened Common

  /** ESP-IDF status codes the NVS wrappers produce or compare against. */
  const ESP_OK: int := 0
  const ESP_ERR_NVS_BASE: int := 0x1100
  const ESP_ERR_NVS_INVALID_LENGTH: int := ESP_ERR_NVS_BASE + 0x0c

  /** ZeroMemory: bytes [0, length) become 0, the rest of the buffer is untouched. */
  method ZeroMemory(dest: array<byte>, length: nat)
    requires length <= dest.Length
    modifies dest
    ensures forall k :: 0 <= k < length ==> dest[k] == 0
    ensures dest[length..] == old(dest[length..])
  {
    var k := 0;
    while k < length
      invariant 0 <= k <= length
      invariant forall j :: 0 <= j < k ==> dest[j] == 0
      invariant dest[length..] == old(dest[length..])
    {
      dest[k] := 0;
      k := k + 1;
    }
  }

  /** CopyMemory: dst[0, length) takes src[0, length); the rest of dst is untouched. The
      source performs no bounds check, so both buffers must hold `length` elements. */
  method CopyMemory<T>(dst: array<T>, src: array<T>, length: nat)
    requires length <= dst.Length && length <= src.Length
    modifies dst
    ensures dst[..length] == old(src[..length])
    ensures dst[length..] == old(dst[length..])
  {
    ghost var original := src[..length];
    var k := 0;
    while k < length
      invariant 0 <= k <= length
      invariant dst[..k] == original[..k]
      invariant src == dst ==> src[k..length] == original[k..]
      invariant src != dst ==> src[..length] == original
      invariant dst[length..] == old(dst[length..])
    {
      dst[k] := src[k];
      k := k + 1;
      assert dst[..k] == original[..k];
    }
  }

  /** CompareTo: whether `item` is one of the elements of `list`. */
  function CompareTo<T(==)>(item: T, list: seq<T>): (found: bool)
    ensures found <==> item in list
  {
    if list == [] then false
    else if list[0] == item then true
    else CompareTo(item, list[1..])
  }

  /** What an nvs_get_* getter returned: its status and, when that is ESP_OK, the value. */
  datatype NvsLookup<T> = NvsLookup(status: int, value: T)

  /** ReadNVS for numeric items: `out` takes the stored value only when the getter returns
      ESP_OK; the getter's status is returned either way. */
  method ReadNvs<T>(lookup: NvsLookup<T>, out: T) returns (status: int, newOut: T)
    ensures status == lookup.status
    ensures newOut == (if lookup.status == ESP_OK then lookup.value else out)
  {
    status := lookup.status;
    newOut := out;
    if status == ESP_OK {
      newOut := lookup.value;
    }
  }

  /** ReadNVS for strings. nvs_get_str first reports the stored length, terminator
      included (|value| + 1 for a stored string `value`); a missing key propagates the
      getter's status, a length of at most 1 (an empty string) is refused with
      ESP_ERR_NVS_INVALID_LENGTH, and otherwise `out` becomes the stored string. */
  method ReadNvsString(lookup: NvsLookup<string>, out: string) returns (status: int, newOut: string)
    ensures lookup.status != ESP_OK ==> status == lookup.status && newOut == out
    ensures lookup.status == ESP_OK && |lookup.value| == 0 ==>
              status == ESP_ERR_NVS_INVALID_LENGTH && newOut == out
    ensures lookup.status == ESP_OK && |lookup.value| > 0 ==>
              status == ESP_OK && newOut == lookup.value
  {
    status := lookup.status;
    newOut := out;
    if status == ESP_OK {
      var length := |lookup.value| + 1;
      if length > 1 {
        newOut := lookup.value;
      } else {
        status := ESP_ERR_NVS_INVALID_LENGTH;
      }
    }
  }
}
