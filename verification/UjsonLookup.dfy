/** What the lookup helpers of ujson answer, on the list of parsed pairs. */
module UjsonLookup {
  import opened Machine
  import opened Text
  import opened UjsonSpec
  import opened UjsonMachine

  /** The C string that a byte sequence starts with. */
  function CStr(s: seq<byte>): seq<byte> { s[..IndexOf(s, 0)] }

  /** Index of the first pair with this key, or -1. */
  function FindKey(pairs: seq<Pair>, name: seq<byte>): (r: int)
    ensures -1 <= r < |pairs|
    ensures r >= 0 ==> CStr(pairs[r].key) == name
    ensures forall k :: 0 <= k < (if r < 0 then |pairs| else r) ==> CStr(pairs[k].key) != name
  {
    FindFrom(pairs, name, 0)
  }

  function FindFrom(pairs: seq<Pair>, name: seq<byte>, i: nat): (r: int)
    requires i <= |pairs|
    ensures -1 <= r < |pairs| && (r >= 0 ==> i <= r)
    ensures r >= 0 ==> CStr(pairs[r].key) == name
    ensures forall k :: i <= k < (if r < 0 then |pairs| else r) ==> CStr(pairs[k].key) != name
    decreases |pairs| - i
  {
    if i == |pairs| then -1
    else if CStr(pairs[i].key) == name then i
    else FindFrom(pairs, name, i + 1)
  }

  /** strtol in base 10 with a `long` of either width, converted to int32_t. */
  function ReadInt32(longMax: int, s: seq<byte>): int32 {
    var v := Decimal(s);
    Machine.I32(if v > longMax then longMax else if v < -longMax - 1 then -longMax - 1 else v)
  }

  predicate IsLongMax(n: int) { n == 0x7FFF_FFFF || n == 0x7FFF_FFFF_FFFF_FFFF }

  function TextFor(pairs: seq<Pair>, name: seq<byte>): Option<seq<byte>> {
    var i := FindKey(pairs, name);
    if i < 0 then None else Some(CStr(pairs[i].text))
  }

  function IntFor(longMax: int, pairs: seq<Pair>, name: seq<byte>): Option<int32> {
    var i := FindKey(pairs, name);
    if i < 0 || !pairs[i].numeric then None else Some(ReadInt32(longMax, pairs[i].text))
  }

  lemma NumberNoNul(t: seq<byte>)
    requires NumberPrefix(t)
    ensures CStr(t) == t
  {
    assert forall k :: 0 <= k < |t| ==> t[k] != 0;
  }
}
