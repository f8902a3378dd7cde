/**
 * The agent's request parsers (main.go): `parseConfig` reads the ID, IP and
 * PORT fields of a `CFG|...` message, `parseNetKV` its IP, MASK, GW and DNS
 * fields, and `hasDHCPFlag` looks for a DHCP request anywhere in it.
 */
module AgentCodec {
  import opened Wrappers
  import opened Text
  import opened KeyValue

  /** The record `saveConfig` stores. */
  datatype DeviceConfig = DeviceConfig(id: string, ip: string, port: string)

  /** The four network fields of a request or a reply. */
  datatype NetValues = NetValues(ip: string, mask: string, gw: string, dns: string)

  /** The value the last segment with key `key` gives, "" when there is none. */
  function Field(segs: seq<string>, key: string): string {
    LastValue(segs, {key}).GetOr("")
  }

  /** The message without its leading `CFG|`, matched case-insensitively. */
  function ConfigBody(s: string): (r: string)
    ensures HasPrefix(ToUpper(s), "CFG|") ==> |s| >= 4 && s == s[..4] + r
    ensures !HasPrefix(ToUpper(s), "CFG|") ==> r == s
  {
    if HasPrefix(ToUpper(s), "CFG|") then s[4..] else s
  }

  /** What `parseConfig` returns: each field is the value of the last segment naming it. */
  function ConfigOf(s: string): DeviceConfig {
    var segs := Split(ConfigBody(s), '|');
    DeviceConfig(Field(segs, "ID"), Field(segs, "IP"), Field(segs, "PORT"))
  }

  /** `parseConfig`: loop over the segments and assign the field each one names. */
  method ParseConfig(s: string) returns (cfg: DeviceConfig)
    ensures cfg == ConfigOf(s)
  {
    var parts := Split(ConfigBody(s), '|');
    cfg := DeviceConfig("", "", "");
    var i := 0;
    while i < |parts|
      invariant 0 <= i <= |parts|
      invariant cfg == DeviceConfig(Field(parts[..i], "ID"), Field(parts[..i], "IP"), Field(parts[..i], "PORT"))
    {
      var p := parts[i];
      LastValueAppend(parts[..i], p, {"ID"});
      LastValueAppend(parts[..i], p, {"IP"});
      LastValueAppend(parts[..i], p, {"PORT"});
      assert parts[..i + 1] == parts[..i] + [p];
      var kv := Cut(p, '=');
      if kv.Some? {
        var k := ToUpper(TrimSpace(kv.value.0));
        var v := TrimSpace(kv.value.1);
        if k == "ID" {
          cfg := cfg.(id := v);
        } else if k == "IP" {
          cfg := cfg.(ip := v);
        } else if k == "PORT" {
          cfg := cfg.(port := v);
        }
      }
      i := i + 1;
    }
    assert parts[..i] == parts;
  }

  /** The text after the first `|`, or all of it when there is none. */
  function NetKVBody(s: string): (r: string)
    ensures '|' !in s ==> r == s
    ensures '|' in s ==> exists i :: 0 <= i < |s| && s[i] == '|' && '|' !in s[..i] && r == s[i + 1..]
  {
    match IndexOf(s, '|')
    case None => s
    case Some(i) => s[i + 1..]
  }

  /** What `parseNetKV` returns. */
  function NetValuesOf(s: string): NetValues {
    var segs := Split(NetKVBody(s), '|');
    NetValues(Field(segs, "IP"), Field(segs, "MASK"), Field(segs, "GW"), Field(segs, "DNS"))
  }

  /** `parseNetKV`: skip the first token, then loop over the segments. */
  method ParseNetKV(s: string) returns (n: NetValues)
    ensures n == NetValuesOf(s)
  {
    var idx := IndexOf(s, '|');
    var rest := s;
    if idx.Some? {
      rest := s[idx.value + 1..];
    }
    n := ScanNetValues(Split(rest, '|'));
  }

  /** The segment loop of `parseNetKV`. */
  method ScanNetValues(parts: seq<string>) returns (n: NetValues)
    ensures n == NetValues(Field(parts, "IP"), Field(parts, "MASK"), Field(parts, "GW"), Field(parts, "DNS"))
  {
    n := NetValues("", "", "", "");
    var i := 0;
    while i < |parts|
      invariant 0 <= i <= |parts|
      invariant n == NetValues(Field(parts[..i], "IP"), Field(parts[..i], "MASK"), Field(parts[..i], "GW"), Field(parts[..i], "DNS"))
    {
      var p := parts[i];
      LastValueAppend(parts[..i], p, {"IP"});
      LastValueAppend(parts[..i], p, {"MASK"});
      LastValueAppend(parts[..i], p, {"GW"});
      LastValueAppend(parts[..i], p, {"DNS"});
      assert parts[..i + 1] == parts[..i] + [p];
      var kv := Cut(p, '=');
      if kv.Some? {
        var k := ToUpper(TrimSpace(kv.value.0));
        var v := TrimSpace(kv.value.1);
        if k == "IP" {
          n := n.(ip := v);
        } else if k == "MASK" {
          n := n.(mask := v);
        } else if k == "GW" {
          n := n.(gw := v);
        } else if k == "DNS" {
          n := n.(dns := v);
        }
      }
      i := i + 1;
    }
    assert parts[..i] == parts;
  }

  /** `hasDHCPFlag`: the upper-cased message contains `DHCP=1`, `DHCP=YES` or `DHCP=TRUE`. */
  predicate HasDHCPFlag(s: string) {
    var up := ToUpper(s);
    Contains(up, "DHCP=1") || Contains(up, "DHCP=YES") || Contains(up, "DHCP=TRUE")
  }

  /** Upper-casing the message first changes nothing: the flag is case-insensitive. */
  lemma HasDHCPFlagFolds(s: string)
    ensures HasDHCPFlag(ToUpper(s)) == HasDHCPFlag(s)
  {
    ToUpperIdempotent(s);
  }

  /** A DHCP request anywhere in the message, in any case, is detected. */
  lemma HasDHCPFlagAnywhere(a: string, t: string, b: string)
    requires ToUpper(t) in {"DHCP=1", "DHCP=YES", "DHCP=TRUE"}
    ensures HasDHCPFlag(a + t + b)
  {
    ToUpperAppend(a + t, b);
    ToUpperAppend(a, t);
    var up := ToUpper(a + t + b);
    assert up == ToUpper(a) + ToUpper(t) + ToUpper(b);
    assert OccursAt(up, ToUpper(t), |a|);
  }

  lemma ConfigBodyAppend(s: string, x: string)
    requires HasPrefix(ToUpper(s), "CFG|")
    ensures ConfigBody(s + x) == ConfigBody(s) + x
  {
    ToUpperAppend(s, x);
    assert ToUpper(s + x)[..4] == ToUpper(s)[..4];
    assert (s + x)[4..] == s[4..] + x;
  }

  /** Splitting the configuration body after one more segment. */
  lemma ConfigSegmentsAppend(s: string, p: string)
    requires HasPrefix(ToUpper(s), "CFG|") && '|' !in p
    ensures Split(ConfigBody(s + "|" + p), '|') == Split(ConfigBody(s), '|') + [p]
  {
    ConfigBodyAppend(s, "|" + p);
    assert s + "|" + p == s + ("|" + p);
    assert ConfigBody(s) + ("|" + p) == ConfigBody(s) + ['|'] + p;
    SplitAppend(ConfigBody(s), '|', p);
    SplitNone(p, '|');
  }

  /** A segment appended to a `CFG|` message sets the field it names (the last one wins,
      whatever the case of its key) and leaves the other fields alone. */
  lemma ConfigAppend(s: string, p: string)
    requires HasPrefix(ToUpper(s), "CFG|") && '|' !in p
    ensures Assigns(Segment(p), {"ID"}) ==> ConfigOf(s + "|" + p).id == Segment(p).value.1
    ensures !Assigns(Segment(p), {"ID"}) ==> ConfigOf(s + "|" + p).id == ConfigOf(s).id
    ensures Assigns(Segment(p), {"IP"}) ==> ConfigOf(s + "|" + p).ip == Segment(p).value.1
    ensures !Assigns(Segment(p), {"IP"}) ==> ConfigOf(s + "|" + p).ip == ConfigOf(s).ip
    ensures Assigns(Segment(p), {"PORT"}) ==> ConfigOf(s + "|" + p).port == Segment(p).value.1
    ensures !Assigns(Segment(p), {"PORT"}) ==> ConfigOf(s + "|" + p).port == ConfigOf(s).port
  {
    ConfigSegmentsAppend(s, p);
    var segs := Split(ConfigBody(s), '|');
    LastValueAppend(segs, p, {"ID"});
    LastValueAppend(segs, p, {"IP"});
    LastValueAppend(segs, p, {"PORT"});
  }
}
