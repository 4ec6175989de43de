/**
 * Device check and control key (tools/iwn/iwndebug/main.c:161-165).
 * The name read from `net.wlan.devices` must begin with the family prefix
 * `iwn`; the debug parameter of that unit is `dev.iwn.<unit>.debug`, where
 * the unit is what follows the prefix.
 */
module Device {
  import opened Wrappers
  import opened CLib

  const Family: string := "iwn"
  const KeyHead: string := "dev.iwn."
  const KeyTail: string := ".debug"

  /** The control key for a device name, or None when the name is missing or not an iwn device. */
  function DebugKey(ifname: Option<string>): (key: Option<string>)
    ensures key.Some? <==> ifname.Some? && StartsWith(ifname.value, Family)
    ensures key.Some? ==> StartsWith(key.value, KeyHead) && |key.value| == |ifname.value| + 11
    ensures key.Some? ==> key.value[|key.value| - |KeyTail|..] == KeyTail
  {
    if ifname.Some? && StartsWith(ifname.value, Family)
    then Some(KeyHead + ifname.value[|Family|..] + KeyTail)
    else None
  }

  /** The unit part of a control key: what lies between `dev.iwn.` and `.debug`. */
  function UnitOf(key: string): string
    requires |key| >= |KeyHead| + |KeyTail|
  {
    key[|KeyHead|..|key| - |KeyTail|]
  }

  /** The key names its device: the family prefix and the key's unit give the device back. */
  lemma KeyRoundTrip(ifname: string)
    requires StartsWith(ifname, Family)
    ensures Family + UnitOf(DebugKey(Some(ifname)).value) == ifname
  {
    var key := DebugKey(Some(ifname)).value;
    assert UnitOf(key) == ifname[3..];
    assert ifname == ifname[..3] + ifname[3..];
  }

  /** Two iwn devices share a control key only when they are the same device. */
  lemma KeyInjective(d1: string, d2: string)
    requires StartsWith(d1, Family) && StartsWith(d2, Family)
    requires DebugKey(Some(d1)) == DebugKey(Some(d2))
    ensures d1 == d2
  {
    KeyRoundTrip(d1);
    KeyRoundTrip(d2);
  }
}
