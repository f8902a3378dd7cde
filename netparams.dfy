/**
 * Where the agent finds the network values it reports (main.go): the
 * `.network` file scan of `parseNetworkFiles`, the route-table readers
 * `defaultIfaceFromProcRoute` and `gatewayFromProcRoute`, the resolver
 * reader `dnsFromResolvConf`, and the fallback order of `getNetworkParams`.
 * File contents are parameters (`None` when the file cannot be read); the
 * interface enumeration of `ipMaskFromInterfaces` is a parameter too.
 */
module NetParams {
  import opened Wrappers
  import opened Text
  import opened IPv4
  import opened Netmask
  import opened AgentCodec

  const Empty := NetValues("", "", "", "")

  /** Some value was found. */
  predicate Meaningful(v: NetValues) {
    v.ip != "" || v.mask != "" || v.gw != "" || v.dns != ""
  }

  // The route table and the resolver configuration.

  /** The line tests of the three readers. */
  datatype LineKind =
    | DefaultRoute    // at least three fields, the destination is 00000000
    | DefaultGateway  // a default route whose gateway field decodes to an address
    | Nameserver      // a `nameserver ` line holding an IPv4 address

  /** The address a `nameserver ` line names, before it is checked. */
  function NameserverValue(line: string): string {
    TrimSpace(TrimPrefix(TrimSpace(line), "nameserver "))
  }

  predicate IsKind(line: string, k: LineKind) {
    var f := Fields(line);
    match k
    case DefaultRoute => |f| >= 3 && f[1] == "00000000"
    case DefaultGateway => |f| >= 3 && f[1] == "00000000" && HexLEToIPv4(f[2]) != ""
    case Nameserver => HasPrefix(TrimSpace(line), "nameserver ") && IsIPv4(NameserverValue(line))
  }

  /** Which lines pass the test. */
  function Marks(lines: seq<string>, k: LineKind): (m: seq<bool>)
    ensures |m| == |lines|
    ensures forall i :: 0 <= i < |lines| ==> m[i] == IsKind(lines[i], k)
  {
    seq(|lines|, i requires 0 <= i < |lines| => IsKind(lines[i], k))
  }

  /** The first marked index from `lo` on. */
  function FirstTrue(m: seq<bool>, lo: nat): (r: Option<nat>)
    requires lo <= |m|
    ensures r.Some? ==> lo <= r.value < |m| && m[r.value]
    ensures r.Some? ==> forall j :: lo <= j < r.value ==> !m[j]
    ensures r.None? ==> forall j :: lo <= j < |m| ==> !m[j]
    decreases |m| - lo
  {
    if lo == |m| then None
    else if m[lo] then Some(lo)
    else FirstTrue(m, lo + 1)
  }

  /** The first line from `lo` on that passes the test. */
  function FirstOf(lines: seq<string>, k: LineKind, lo: nat): (r: Option<nat>)
    requires lo <= |lines|
    ensures r.Some? ==> lo <= r.value < |lines| && IsKind(lines[r.value], k)
    ensures r.Some? ==> forall j :: lo <= j < r.value ==> !IsKind(lines[j], k)
    ensures r.None? ==> forall j :: lo <= j < |lines| ==> !IsKind(lines[j], k)
  {
    var m := Marks(lines, k);
    var r := FirstTrue(m, lo);
    assert r.Some? ==> forall j :: lo <= j < r.value ==> !IsKind(lines[j], k) by {
      if r.Some? {
        forall j | lo <= j < r.value ensures !IsKind(lines[j], k) { assert !m[j]; }
      }
    }
    assert r.None? ==> forall j :: lo <= j < |lines| ==> !IsKind(lines[j], k) by {
      if r.None? {
        forall j | lo <= j < |lines| ensures !IsKind(lines[j], k) { assert !m[j]; }
      }
    }
    r
  }

  /** The interface of the first default route after the header line, "" when there is none. */
  function DefaultIface(lines: seq<string>): (r: string)
    ensures r == "" <==> |lines| <= 1 || FirstOf(lines, DefaultRoute, 1).None?
  {
    if |lines| <= 1 then ""
    else match FirstOf(lines, DefaultRoute, 1)
      case Some(k) => Fields(lines[k])[0]
      case None => ""
  }

  /** The gateway of the first default route whose gateway field decodes, "" when there is none. */
  function DefaultGatewayOf(lines: seq<string>): (r: string)
    ensures r == "" || IsIPv4(r)
  {
    if |lines| <= 1 then ""
    else match FirstOf(lines, DefaultGateway, 1)
      case Some(k) =>
        var f := Fields(lines[k]);
        HexLEToIPv4Shape(f[2]);
        HexLEToIPv4(f[2])
      case None => ""
  }

  /** The first nameserver address, "" when no line names one. */
  function NameserverOf(lines: seq<string>): (r: string)
    ensures r == "" || IsIPv4(r)
  {
    match FirstOf(lines, Nameserver, 0)
    case Some(k) => NameserverValue(lines[k])
    case None => ""
  }

  /** The lines of a file that could be read, and none of one that could not. */
  function LinesOf(content: Option<string>): seq<string> {
    match content
    case Some(c) => Split(c, '\n')
    case None => []
  }

  /** `defaultIfaceFromProcRoute`: skip the header, then return the interface of the first
      default route. */
  method DefaultIfaceFromRoute(route: Option<string>) returns (iface: string)
    ensures iface == DefaultIface(LinesOf(route))
  {
    if route.None? {
      return "";
    }
    var lines := Split(route.value, '\n');
    var i := 1;
    while i < |lines|
      invariant 1 <= i
      invariant |lines| > 1 ==> i <= |lines| && FirstOf(lines, DefaultRoute, 1) == FirstOf(lines, DefaultRoute, i)
    {
      var f := Fields(lines[i]);
      if |f| >= 3 && f[1] == "00000000" {
        return f[0];
      }
      i := i + 1;
    }
    return "";
  }

  /** `gatewayFromProcRoute`: skip the header, then return the first default route's gateway
      that decodes; a default route whose gateway does not decode is passed over. */
  method GatewayFromRoute(route: Option<string>) returns (gw: string)
    ensures gw == DefaultGatewayOf(LinesOf(route))
  {
    if route.None? {
      return "";
    }
    var lines := Split(route.value, '\n');
    var i := 1;
    while i < |lines|
      invariant 1 <= i
      invariant |lines| > 1 ==> i <= |lines| && FirstOf(lines, DefaultGateway, 1) == FirstOf(lines, DefaultGateway, i)
    {
      var f := Fields(lines[i]);
      if |f| >= 3 && f[1] == "00000000" {
        var ip := HexLEToIPv4(f[2]);
        if ip != "" {
          return ip;
        }
      }
      i := i + 1;
    }
    return "";
  }

  /** `dnsFromResolvConf`: the address of the first `nameserver ` line that holds one. */
  method DnsFromResolv(resolv: Option<string>) returns (dns: string)
    ensures dns == NameserverOf(LinesOf(resolv))
  {
    if resolv.None? {
      return "";
    }
    var lines := Split(resolv.value, '\n');
    var i := 0;
    while i < |lines|
      invariant i <= |lines|
      invariant FirstOf(lines, Nameserver, 0) == FirstOf(lines, Nameserver, i)
    {
      var s := TrimSpace(lines[i]);
      if HasPrefix(s, "nameserver ") {
        var ip := TrimSpace(TrimPrefix(s, "nameserver "));
        if IsIPv4(ip) {
          return ip;
        }
      }
      i := i + 1;
    }
    return "";
  }

  /** A `nameserver` line with a dotted quad gives that address. */
  lemma NameserverOfLine(o: seq<nat>)
    requires IsQuad(o)
    ensures NameserverOf(["nameserver " + FormatIPv4(o)]) == FormatIPv4(o)
  {
    var a := FormatIPv4(o);
    var line := "nameserver " + a;
    FormatEnds(o);
    DigitNotSpace(a[|a| - 1]);
    assert line[|line| - 1] == a[|a| - 1];
    TrimSpaceOfTrimmed(line);
    assert line[..11] == "nameserver ";
    assert TrimPrefix(line, "nameserver ") == a;
    FormatTrimmed(o);
    TrimSpaceOfTrimmed(a);
    FormatIsIPv4(o);
    assert IsKind(line, Nameserver);
  }

  // The `.network` file scan of `parseNetworkFiles`.

  /** The scan state: the values found so far and the last `Address=` value of the file. */
  datatype Scan = Scan(values: NetValues, addr: string)

  /** The first field that is an IPv4 address. */
  function FirstIPv4(fields: seq<string>): (r: Option<string>)
    ensures r.Some? ==> r.value in fields && IsIPv4(r.value)
    ensures r.None? <==> forall k :: 0 <= k < |fields| ==> !IsIPv4(fields[k])
  {
    if fields == [] then None
    else if IsIPv4(fields[0]) then Some(fields[0])
    else FirstIPv4(fields[1..])
  }

  /** The value of a trimmed `key` line. */
  function ValueAfter(s: string, key: string): string {
    TrimSpace(TrimPrefix(s, key))
  }

  /** One line of a `.network` file: blank lines and `#` comments are skipped, `Address=`
      replaces the address, `Gateway=` the gateway, and `DNS=` sets the resolver to its
      first IPv4 field when it has one. */
  function ScanLine(st: Scan, line: string): Scan {
    var s := TrimSpace(line);
    if s == "" || HasPrefix(s, "#") then st
    else if HasPrefix(s, "Address=") then st.(addr := ValueAfter(s, "Address="))
    else if HasPrefix(s, "Gateway=") then st.(values := st.values.(gw := ValueAfter(s, "Gateway=")))
    else if HasPrefix(s, "DNS=") then
      match FirstIPv4(Fields(ValueAfter(s, "DNS=")))
      case Some(d) => st.(values := st.values.(dns := d))
      case None => st
    else st
  }

  /** The scan over the lines, first to last. */
  function ScanLines(st: Scan, lines: seq<string>): Scan
    decreases |lines|
  {
    if lines == [] then st else ScanLine(ScanLines(st, lines[..|lines| - 1]), lines[|lines| - 1])
  }

  /** The address text once the file is scanned: `ip/pfx` sets the address and, for a
      prefix length 0..32, the mask; a bare dotted quad sets only the address. */
  function ApplyAddress(v: NetValues, addr: string): NetValues {
    if addr == "" then v
    else
      var parts := Split(addr, '/');
      if |parts| == 2 then
        var candidate := TrimSpace(parts[0]);
        if IsIPv4(candidate) then
          match Atoi(parts[1])
          case Some(p) => if 0 <= p <= 32 then v.(ip := candidate, mask := PrefixToMask(p)) else v.(ip := candidate)
          case None => v.(ip := candidate)
        else v
      else if IsIPv4(addr) then v.(ip := addr)
      else v
  }

  /** The values one file adds to `v`. */
  function FileValues(v: NetValues, content: string): NetValues {
    var st := ScanLines(Scan(v, ""), Split(content, '\n'));
    ApplyAddress(st.values, st.addr)
  }

  /** What `parseNetworkFiles` returns for the matched files in order: the values of the
      first readable file that gives anything; all empty when none does. */
  function ParseFiles(v: NetValues, files: seq<Option<string>>): NetValues
    decreases |files|
  {
    if files == [] then Empty
    else match files[0]
      case None => ParseFiles(v, files[1..])
      case Some(c) =>
        var v1 := FileValues(v, c);
        if Meaningful(v1) then v1 else ParseFiles(v1, files[1..])
  }

  /** `parseNetworkFiles` over the matched files' contents. */
  method ParseNetworkFiles(files: seq<Option<string>>) returns (v: NetValues)
    ensures v == ParseFiles(Empty, files)
  {
    v := Empty;
    var i := 0;
    while i < |files|
      invariant i <= |files|
      invariant ParseFiles(Empty, files) == ParseFiles(v, files[i..])
    {
      assert files[i..][1..] == files[i + 1..];
      if files[i].Some? {
        var st := ScanFile(v, Split(files[i].value, '\n'));
        v := ApplyAddressTo(st.values, st.addr);
        if Meaningful(v) {
          return v;
        }
      }
      i := i + 1;
    }
    return Empty;
  }

  /** The line loop of one file. */
  method ScanFile(v: NetValues, lines: seq<string>) returns (st: Scan)
    ensures st == ScanLines(Scan(v, ""), lines)
  {
    st := Scan(v, "");
    var i := 0;
    while i < |lines|
      invariant i <= |lines|
      invariant st == ScanLines(Scan(v, ""), lines[..i])
    {
      assert lines[..i + 1][..i] == lines[..i];
      var s := TrimSpace(lines[i]);
      if s == "" || HasPrefix(s, "#") {
      } else if HasPrefix(s, "Address=") {
        st := st.(addr := TrimSpace(TrimPrefix(s, "Address=")));
      } else if HasPrefix(s, "Gateway=") {
        st := st.(values := st.values.(gw := TrimSpace(TrimPrefix(s, "Gateway="))));
      } else if HasPrefix(s, "DNS=") {
        var fields := Fields(TrimSpace(TrimPrefix(s, "DNS=")));
        var d := FirstIPv4Field(fields);
        if d.Some? {
          st := st.(values := st.values.(dns := d.value));
        }
      }
      i := i + 1;
    }
    assert lines[..i] == lines;
  }

  /** The field loop of a `DNS=` line: the first IPv4 field. */
  method FirstIPv4Field(fields: seq<string>) returns (d: Option<string>)
    ensures d == FirstIPv4(fields)
  {
    var k := 0;
    while k < |fields|
      invariant k <= |fields|
      invariant FirstIPv4(fields) == FirstIPv4(fields[k..])
    {
      assert fields[k..][1..] == fields[k + 1..];
      if IsIPv4(fields[k]) {
        return Some(fields[k]);
      }
      k := k + 1;
    }
    assert fields[k..] == [];
    return None;
  }

  /** The address handling after a file's line loop. */
  method ApplyAddressTo(v: NetValues, addr: string) returns (r: NetValues)
    ensures r == ApplyAddress(v, addr)
  {
    r := v;
    if addr != "" {
      var parts := Split(addr, '/');
      if |parts| == 2 {
        var candidate := TrimSpace(parts[0]);
        if IsIPv4(candidate) {
          r := r.(ip := candidate);
          var p := Atoi(parts[1]);
          if p.Some? && 0 <= p.value <= 32 {
            r := r.(mask := PrefixToMask(p.value));
          }
        }
      } else if IsIPv4(addr) {
        r := r.(ip := addr);
      }
    }
  }

  // What the scan promises.

  /** Scanning two runs of lines is scanning the first, then the second. */
  lemma {:induction false} ScanConcat(st: Scan, xs: seq<string>, ys: seq<string>)
    ensures ScanLines(st, xs + ys) == ScanLines(ScanLines(st, xs), ys)
    decreases |ys|
  {
    if ys == [] {
      assert xs + ys == xs;
    } else {
      var init := ys[..|ys| - 1];
      assert (xs + ys)[..|xs + ys| - 1] == xs + init;
      ScanConcat(st, xs, init);
    }
  }

  /** A line whose trimmed text is not an `Address=` line leaves the address as it is. */
  predicate NotAddress(line: string) {
    !HasPrefix(TrimSpace(line), "Address=")
  }

  lemma {:induction false} ScanKeepsAddr(st: Scan, ys: seq<string>)
    requires forall k :: 0 <= k < |ys| ==> NotAddress(ys[k])
    ensures ScanLines(st, ys).addr == st.addr
    decreases |ys|
  {
    if ys != [] {
      ScanKeepsAddr(st, ys[..|ys| - 1]);
    }
  }

  /** The last `Address=` line of a file decides its address. */
  lemma LastAddressWins(st: Scan, xs: seq<string>, line: string, ys: seq<string>)
    requires HasPrefix(TrimSpace(line), "Address=")
    requires forall k :: 0 <= k < |ys| ==> NotAddress(ys[k])
    ensures ScanLines(st, xs + [line] + ys).addr == ValueAfter(TrimSpace(line), "Address=")
  {
    ScanConcat(st, xs + [line], ys);
    var mid := ScanLines(st, xs + [line]);
    assert (xs + [line])[..|xs + [line]| - 1] == xs;
    ScanKeepsAddr(mid, ys);
  }

  /** Blank lines and comments change nothing. */
  lemma SkippedLine(st: Scan, line: string)
    requires TrimSpace(line) == "" || HasPrefix(TrimSpace(line), "#")
    ensures ScanLine(st, line) == st
  {
  }

  /** A `DNS=` line with no IPv4 field keeps the resolver found before. */
  lemma DnsWithoutIPv4(st: Scan, line: string)
    requires HasPrefix(TrimSpace(line), "DNS=")
    requires forall k :: 0 <= k < |Fields(ValueAfter(TrimSpace(line), "DNS="))| ==>
      !IsIPv4(Fields(ValueAfter(TrimSpace(line), "DNS="))[k])
    ensures ScanLine(st, line) == st
  {
    var s := TrimSpace(line);
    DnsLineIsNoOther(s);
    assert FirstIPv4(Fields(ValueAfter(s, "DNS="))) == None;
  }

  /** A `DNS=` line is not blank, not a comment, and not an `Address=` or `Gateway=` line. */
  lemma DnsLineIsNoOther(s: string)
    requires HasPrefix(s, "DNS=")
    ensures s != "" && !HasPrefix(s, "#") && !HasPrefix(s, "Address=") && !HasPrefix(s, "Gateway=")
  {
    assert s[0] == "DNS="[0] == 'D';
  }

  /** The address `applySystemdNetworkConfig` writes, `ip/pfx`, reads back as the address
      and the mask of that prefix length. */
  lemma AddressRoundTrip(v: NetValues, o: seq<nat>, pfx: nat)
    requires IsQuad(o) && pfx <= 32
    ensures ApplyAddress(v, FormatIPv4(o) + "/" + NatToDec(pfx))
      == v.(ip := FormatIPv4(o), mask := PrefixToMask(pfx))
  {
    var a, d := FormatIPv4(o), NatToDec(pfx);
    assert '/' !in a by {
      FormatChars(o);
    }
    assert '/' !in d;
    SplitAppend(a, '/', d);
    SplitNone(a, '/');
    SplitNone(d, '/');
    assert a + "/" + d == a + ['/'] + d;
    FormatTrimmed(o);
    TrimSpaceOfTrimmed(a);
    FormatIsIPv4(o);
    AtoiOfNatToDec(pfx);
  }

  /** Files that give nothing leave the scan state empty. */
  lemma EmptyUnlessMeaningful(v: NetValues)
    requires !Meaningful(v)
    ensures v == Empty
  {
  }

  /** The first readable file that gives anything decides. */
  lemma {:induction false} FirstMeaningfulFile(files: seq<Option<string>>, k: nat)
    requires k < |files| && files[k].Some? && Meaningful(FileValues(Empty, files[k].value))
    requires forall j :: 0 <= j < k && files[j].Some? ==> !Meaningful(FileValues(Empty, files[j].value))
    ensures ParseFiles(Empty, files) == FileValues(Empty, files[k].value)
    decreases k
  {
    if k > 0 {
      assert forall j :: 0 <= j < k - 1 && files[1..][j].Some? ==>
        !Meaningful(FileValues(Empty, files[1..][j].value)) by {
        forall j | 0 <= j < k - 1 && files[1..][j].Some?
          ensures !Meaningful(FileValues(Empty, files[1..][j].value))
        {
          assert files[1..][j] == files[j + 1];
        }
      }
      FirstMeaningfulFile(files[1..], k - 1);
    }
    ParseFilesFromEmpty(files);
  }

  /** One step of the scan from the empty state: a file that gives nothing leaves the state
      empty, so the rest is scanned from the empty state again. */
  lemma ParseFilesFromEmpty(files: seq<Option<string>>)
    requires files != []
    ensures ParseFiles(Empty, files)
      == if files[0].Some? && Meaningful(FileValues(Empty, files[0].value)) then FileValues(Empty, files[0].value)
         else ParseFiles(Empty, files[1..])
  {
    if files[0].Some? {
      var v1 := FileValues(Empty, files[0].value);
      if !Meaningful(v1) {
        EmptyUnlessMeaningful(v1);
      }
    }
  }

  /** When no file gives anything the result is empty. */
  lemma {:induction false} NoMeaningfulFile(files: seq<Option<string>>)
    requires forall j :: 0 <= j < |files| && files[j].Some? ==> !Meaningful(FileValues(Empty, files[j].value))
    ensures ParseFiles(Empty, files) == Empty
    decreases |files|
  {
    if files != [] {
      forall j | 0 <= j < |files[1..]| && files[1..][j].Some?
        ensures !Meaningful(FileValues(Empty, files[1..][j].value))
      {
        assert files[1..][j] == files[j + 1];
      }
      NoMeaningfulFile(files[1..]);
      ParseFilesFromEmpty(files);
    }
  }

  // The fallback order of `getNetworkParams`.

  /** `getNetworkParams`: the `eth*.network` files, else every `.network` file; then each
      field still empty is taken from the live system (the interface's address and mask,
      the route table's gateway, the resolver's first nameserver). */
  function NetworkParams(eth: seq<Option<string>>, all: seq<Option<string>>, ifaceIP: string, ifaceMask: string,
                         route: Option<string>, resolv: Option<string>): NetValues
  {
    var v0 := ParseFiles(Empty, eth);
    var v := if Meaningful(v0) then v0 else ParseFiles(Empty, all);
    NetValues(
      if v.ip == "" then ifaceIP else v.ip,
      if v.mask == "" then ifaceMask else v.mask,
      if v.gw == "" then DefaultGatewayOf(LinesOf(route)) else v.gw,
      if v.dns == "" then NameserverOf(LinesOf(resolv)) else v.dns)
  }

  /** What the `eth*.network` files give is never overridden: neither the other files nor
      the live system are consulted for a field they supply. */
  lemma EthFilesFirst(eth: seq<Option<string>>, all1: seq<Option<string>>, all2: seq<Option<string>>,
                      ifaceIP: string, ifaceMask: string, route: Option<string>, resolv: Option<string>)
    requires Meaningful(ParseFiles(Empty, eth))
    ensures NetworkParams(eth, all1, ifaceIP, ifaceMask, route, resolv)
      == NetworkParams(eth, all2, ifaceIP, ifaceMask, route, resolv)
    ensures var v := ParseFiles(Empty, eth);
      var r := NetworkParams(eth, all1, ifaceIP, ifaceMask, route, resolv);
      (v.ip != "" ==> r.ip == v.ip) && (v.mask != "" ==> r.mask == v.mask)
      && (v.gw != "" ==> r.gw == v.gw) && (v.dns != "" ==> r.dns == v.dns)
  {
  }

  /** With no file values at all, the live gateway and nameserver are reported. */
  lemma LiveFallback(eth: seq<Option<string>>, all: seq<Option<string>>, ifaceIP: string, ifaceMask: string,
                     route: Option<string>, resolv: Option<string>)
    requires forall j :: 0 <= j < |eth| && eth[j].Some? ==> !Meaningful(FileValues(Empty, eth[j].value))
    requires forall j :: 0 <= j < |all| && all[j].Some? ==> !Meaningful(FileValues(Empty, all[j].value))
    ensures NetworkParams(eth, all, ifaceIP, ifaceMask, route, resolv)
      == NetValues(ifaceIP, ifaceMask, DefaultGatewayOf(LinesOf(route)), NameserverOf(LinesOf(resolv)))
  {
    NoMeaningfulFile(eth);
    NoMeaningfulFile(all);
  }
}
