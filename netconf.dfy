/**
 * Section-structured rewriting of a systemd-networkd `.network` file
 * (main.go): `upsertInSection` and the line logic of
 * `applySystemdNetworkConfig` and `applySystemdNetworkDHCP`. A file is a
 * sequence of lines; the file read, the write and the directory glob are
 * parameters.
 */
module NetConf {
  import opened Wrappers
  import opened Text
  import opened IPv4
  import opened Netmask

  /** The three tests the rewriting applies to a trimmed line. */
  datatype LineTest =
    | SectionNamed(name: string)   // the line is the section header `name`
    | AnyHeader                    // the line is some `[...]` header
    | KeyLine(prefix: string)      // the line starts with `prefix`

  /** The trimmed line `s` passes test `t`. */
  predicate Passes(s: string, t: LineTest) {
    match t
    case SectionNamed(name) => s == name
    case AnyHeader => HasPrefix(s, "[") && HasSuffix(s, "]")
    case KeyLine(prefix) => HasPrefix(s, prefix)
  }

  /** The lines, each trimmed: the text every test looks at. */
  function Trims(lines: seq<string>): (r: seq<string>)
    ensures |r| == |lines| && forall i :: 0 <= i < |lines| ==> r[i] == TrimSpace(lines[i])
  {
    seq(|lines|, i requires 0 <= i < |lines| => TrimSpace(lines[i]))
  }

  /** The first index in `lo..hi-1` whose trimmed line passes `t`. */
  function First(ts: seq<string>, t: LineTest, lo: nat, hi: nat): (r: Option<nat>)
    requires lo <= hi <= |ts|
    ensures r.Some? ==> lo <= r.value < hi && Passes(ts[r.value], t)
    ensures r.Some? ==> forall j {:trigger Passes(ts[j], t)} :: lo <= j < r.value ==> !Passes(ts[j], t)
    ensures r.None? ==> forall j {:trigger Passes(ts[j], t)} :: lo <= j < hi ==> !Passes(ts[j], t)
    decreases hi - lo
  {
    if lo == hi then None
    else if Passes(ts[lo], t) then Some(lo)
    else First(ts, t, lo + 1, hi)
  }

  /** A line that fails the test is skipped. */
  lemma FirstSkip(ts: seq<string>, t: LineTest, i: nat, hi: nat)
    requires i < hi <= |ts| && !Passes(ts[i], t)
    ensures First(ts, t, i, hi) == First(ts, t, i + 1, hi)
  {
  }

  /** A line that passes the test is the answer. */
  lemma FirstHit(ts: seq<string>, t: LineTest, i: nat, hi: nat)
    requires i < hi <= |ts| && Passes(ts[i], t)
    ensures First(ts, t, i, hi) == Some(i)
  {
  }

  /** The first passing line is the answer. */
  lemma {:induction false} FirstIs(ts: seq<string>, t: LineTest, lo: nat, hi: nat, k: nat)
    requires lo <= k < hi <= |ts| && Passes(ts[k], t)
    requires forall j {:trigger Passes(ts[j], t)} :: lo <= j < k ==> !Passes(ts[j], t)
    ensures First(ts, t, lo, hi) == Some(k)
    decreases k - lo
  {
    if lo < k {
      FirstIs(ts, t, lo + 1, hi, k);
    }
  }

  /** With no passing line there is no answer. */
  lemma FirstNone(ts: seq<string>, t: LineTest, lo: nat, hi: nat)
    requires lo <= hi <= |ts|
    requires forall j {:trigger Passes(ts[j], t)} :: lo <= j < hi ==> !Passes(ts[j], t)
    ensures First(ts, t, lo, hi).None?
  {
  }

  /** The index of the section header `section`, if the file has one. */
  function FindSection(lines: seq<string>, section: string): Option<nat> {
    First(Trims(lines), SectionNamed(section), 0, |lines|)
  }

  /** Where the section starting at `start` ends: the next header, or the end of the file. */
  function SectionEnd(lines: seq<string>, start: nat): (e: nat)
    requires start < |lines|
    ensures start < e <= |lines|
    ensures e < |lines| ==> Passes(TrimSpace(lines[e]), AnyHeader)
    ensures forall j :: start < j < e ==> !Passes(Trims(lines)[j], AnyHeader)
  {
    match First(Trims(lines), AnyHeader, start + 1, |lines|)
    case Some(e) => e
    case None => |lines|
  }

  /** The first line of the section from `start` to `end` whose trimmed text starts with `key`. */
  function FindKey(lines: seq<string>, key: string, start: nat, end: nat): Option<nat>
    requires start < end <= |lines|
  {
    First(Trims(lines), KeyLine(key), start + 1, end)
  }

  /** What `upsertInSection` makes of `lines`. */
  function Upsert(lines: seq<string>, section: string, key: string, newLine: string): seq<string> {
    if newLine == "" then lines
    else match FindSection(lines, section)
      case None => lines + ["", section, newLine]
      case Some(start) =>
        var end := SectionEnd(lines, start);
        match FindKey(lines, key, start, end)
        case Some(i) => lines[i := newLine]
        case None => lines[..end] + [newLine] + lines[end..]
  }

  /** `upsertInSection`: locate the section and its end, then replace the first key line in
      it, or insert the new line before the next header, or append a new section. */
  method UpsertInSection(lines: seq<string>, section: string, keyPrefix: string, newLine: string)
    returns (r: seq<string>)
    ensures r == Upsert(lines, section, keyPrefix, newLine)
    ensures newLine == "" ==> r == lines
  {
    if newLine == "" {
      return lines;
    }
    var start := SectionStart(lines, section);
    if start == -1 {
      return lines + ["", section, newLine];
    }
    var end := NextHeader(lines, start);
    var k := KeyIndex(lines, keyPrefix, start, end);
    if k >= 0 {
      return lines[k := newLine];
    }
    if end == |lines| {
      assert lines[..end] + [newLine] + lines[end..] == lines + [newLine];
      r := lines + [newLine];
    } else {
      r := lines[..end] + [newLine] + lines[end..];
    }
  }

  /** The first loop of `upsertInSection`: the index of the section header, or -1. */
  method SectionStart(lines: seq<string>, section: string) returns (start: int)
    ensures start == -1 ==> FindSection(lines, section).None?
    ensures start != -1 ==> FindSection(lines, section) == Some(start)
  {
    ghost var ts := Trims(lines);
    start := -1;
    var i := 0;
    while i < |lines|
      invariant 0 <= i <= |lines|
      invariant FindSection(lines, section) == First(ts, SectionNamed(section), i, |lines|)
    {
      if TrimSpace(lines[i]) == section {
        FirstHit(ts, SectionNamed(section), i, |lines|);
        return i;
      }
      FirstSkip(ts, SectionNamed(section), i, |lines|);
      i := i + 1;
    }
  }

  /** The second loop: the index of the next `[...]` header after `start`, or the length. */
  method NextHeader(lines: seq<string>, start: nat) returns (end: nat)
    requires start < |lines|
    ensures end == SectionEnd(lines, start)
  {
    ghost var ts := Trims(lines);
    end := |lines|;
    var i := start + 1;
    while i < |lines|
      invariant start + 1 <= i <= |lines|
      invariant SectionEnd(lines, start) == (match First(ts, AnyHeader, i, |lines|) case Some(e) => e case None => |lines|)
    {
      var t := TrimSpace(lines[i]);
      if HasPrefix(t, "[") && HasSuffix(t, "]") {
        FirstHit(ts, AnyHeader, i, |lines|);
        return i;
      }
      FirstSkip(ts, AnyHeader, i, |lines|);
      i := i + 1;
    }
  }

  /** The third loop: the first key line of the section, or -1. */
  method KeyIndex(lines: seq<string>, keyPrefix: string, start: nat, end: nat) returns (k: int)
    requires start < end <= |lines|
    ensures k == -1 ==> FindKey(lines, keyPrefix, start, end).None?
    ensures k != -1 ==> FindKey(lines, keyPrefix, start, end) == Some(k)
  {
    ghost var ts := Trims(lines);
    var i := start + 1;
    while i < end
      invariant start + 1 <= i <= end
      invariant FindKey(lines, keyPrefix, start, end) == First(ts, KeyLine(keyPrefix), i, end)
    {
      var t := TrimSpace(lines[i]);
      assert ts[i] == t;
      if HasPrefix(t, keyPrefix) {
        FirstHit(ts, KeyLine(keyPrefix), i, end);
        return i;
      }
      FirstSkip(ts, KeyLine(keyPrefix), i, end);
      i := i + 1;
    }
    return -1;
  }

  // What an upsert does, case by case.

  /** When the section holds a line whose trimmed text starts with the key, the first such
      line, and only it, is replaced; the length stays the same. */
  lemma UpsertReplacesFirstKey(lines: seq<string>, section: string, key: string, newLine: string, start: nat, i: nat)
    requires newLine != "" && FindSection(lines, section) == Some(start)
    requires start < i < SectionEnd(lines, start) && HasPrefix(TrimSpace(lines[i]), key)
    requires forall j :: start < j < i ==> !HasPrefix(TrimSpace(lines[j]), key)
    ensures Upsert(lines, section, key, newLine) == lines[i := newLine]
  {
    var ts := Trims(lines);
    assert Passes(ts[i], KeyLine(key));
    assert forall j {:trigger Passes(ts[j], KeyLine(key))} :: start < j < i ==> !Passes(ts[j], KeyLine(key));
  }

  /** When the section has no key line, the new line goes in just before the next header (or
      at the end of the file); every line before that point keeps its position. */
  lemma UpsertInsertsAtSectionEnd(lines: seq<string>, section: string, key: string, newLine: string, start: nat)
    requires newLine != "" && FindSection(lines, section) == Some(start)
    requires forall j :: start < j < SectionEnd(lines, start) ==> !HasPrefix(TrimSpace(lines[j]), key)
    ensures var e := SectionEnd(lines, start);
      var r := Upsert(lines, section, key, newLine);
      |r| == |lines| + 1 && r[..e] == lines[..e] && r[e] == newLine && r[e + 1..] == lines[e..]
  {
    var ts := Trims(lines);
    var e := SectionEnd(lines, start);
    assert forall j {:trigger Passes(ts[j], KeyLine(key))} :: start < j < e ==> !Passes(ts[j], KeyLine(key));
    var r := lines[..e] + [newLine] + lines[e..];
    assert r[..e] == lines[..e];
    assert r[e + 1..] == lines[e..];
  }

  /** A file without the section gets a blank line, the header and the new line at its end. */
  lemma UpsertAppendsSection(lines: seq<string>, section: string, key: string, newLine: string)
    requires newLine != ""
    requires forall j :: 0 <= j < |lines| ==> TrimSpace(lines[j]) != section
    ensures Upsert(lines, section, key, newLine) == lines + ["", section, newLine]
  {
    var ts := Trims(lines);
    assert forall j {:trigger Passes(ts[j], SectionNamed(section))} :: 0 <= j < |lines| ==> !Passes(ts[j], SectionNamed(section));
  }

  // Idempotence.

  /** The first key line of the section is `newLine`: the state an upsert leaves behind. */
  predicate Holds(lines: seq<string>, section: string, key: string, newLine: string) {
    match FindSection(lines, section)
    case None => false
    case Some(start) =>
      match FindKey(lines, key, start, SectionEnd(lines, start))
      case None => false
      case Some(i) => lines[i] == newLine
  }

  /** Upserting a line that is already in place changes nothing. */
  lemma UpsertWhenHolds(lines: seq<string>, section: string, key: string, newLine: string)
    requires Holds(lines, section, key, newLine)
    ensures Upsert(lines, section, key, newLine) == lines
  {
    var start := FindSection(lines, section).value;
    var i := FindKey(lines, key, start, SectionEnd(lines, start)).value;
    assert lines[i := newLine] == lines;
  }

  /** A line fit to be the key line of the section. */
  predicate KeyLineFor(newLine: string, section: string, key: string) {
    newLine != "" && HasPrefix(TrimSpace(newLine), key) && !Passes(TrimSpace(newLine), AnyHeader)
      && section != "" && Trimmed(section)
  }

  /** After an upsert the new line is the section's key line. */
  lemma UpsertEstablishes(lines: seq<string>, section: string, key: string, newLine: string)
    requires KeyLineFor(newLine, section, key)
    ensures Holds(Upsert(lines, section, key, newLine), section, key, newLine)
  {
    match FindSection(lines, section)
    case None =>
      EstablishesByAppend(lines, section, key, newLine);
    case Some(start) =>
      var e := SectionEnd(lines, start);
      match FindKey(lines, key, start, e)
      case Some(i) =>
        EstablishesByReplace(lines, section, key, newLine, start, i);
      case None =>
        EstablishesByInsert(lines, section, key, newLine, start);
  }

  lemma EstablishesByAppend(lines: seq<string>, section: string, key: string, newLine: string)
    requires KeyLineFor(newLine, section, key) && FindSection(lines, section).None?
    ensures Holds(Upsert(lines, section, key, newLine), section, key, newLine)
  {
    var r := lines + ["", section, newLine];
    var ts, tr := Trims(lines), Trims(r);
    var n := |lines|;
    assert tr[n + 2] == TrimSpace(newLine);
    assert First(tr, SectionNamed(section), 0, |tr|) == Some(n + 1) by {
      assert forall j :: 0 <= j < n ==> tr[j] == ts[j];
      SameBefore(ts, tr, SectionNamed(section), 0, n);
      assert tr[n] == "";
      TrimSpaceOfTrimmed(section);
      assert tr[n + 1] == section;
      FirstIs(tr, SectionNamed(section), 0, |tr|, n + 1);
    }
    assert First(tr, AnyHeader, n + 2, n + 3).None? by {
      FirstSkip(tr, AnyHeader, n + 2, n + 3);
    }
    assert First(tr, KeyLine(key), n + 2, n + 3) == Some(n + 2) by {
      FirstHit(tr, KeyLine(key), n + 2, n + 3);
    }
  }

  lemma EstablishesByReplace(lines: seq<string>, section: string, key: string, newLine: string, start: nat, i: nat)
    requires KeyLineFor(newLine, section, key) && FindSection(lines, section) == Some(start)
    requires FindKey(lines, key, start, SectionEnd(lines, start)) == Some(i)
    ensures Holds(Upsert(lines, section, key, newLine), section, key, newLine)
  {
    var e := SectionEnd(lines, start);
    var r := lines[i := newLine];
    ReplaceKeepsSection(lines, section, start, i, newLine);
    var ts, tr := Trims(lines), Trims(r);
    assert First(tr, KeyLine(key), start + 1, e) == Some(i) by {
      SameBefore(ts, tr, KeyLine(key), start + 1, i);
      FirstIs(tr, KeyLine(key), start + 1, e, i);
    }
  }

  lemma EstablishesByInsert(lines: seq<string>, section: string, key: string, newLine: string, start: nat)
    requires KeyLineFor(newLine, section, key) && FindSection(lines, section) == Some(start)
    requires FindKey(lines, key, start, SectionEnd(lines, start)).None?
    ensures Holds(Upsert(lines, section, key, newLine), section, key, newLine)
  {
    var e := SectionEnd(lines, start);
    var r := lines[..e] + [newLine] + lines[e..];
    InsertKeepsSection(lines, section, start, newLine);
    var ts, tr := Trims(lines), Trims(r);
    var e2 := SectionEnd(r, start);
    assert First(tr, KeyLine(key), start + 1, e2) == Some(e) by {
      SameBefore(ts, tr, KeyLine(key), start + 1, e);
      FirstIs(tr, KeyLine(key), start + 1, e2, e);
    }
  }

  /** Replacing a line inside a section by a line that is not a header keeps the section
      where it is and where it ends; the other lines trim as before. */
  lemma ReplaceKeepsSection(lines: seq<string>, section: string, start: nat, i: nat, x: string)
    requires FindSection(lines, section) == Some(start)
    requires start < i < SectionEnd(lines, start) && !Passes(TrimSpace(x), AnyHeader)
    ensures FindSection(lines[i := x], section) == Some(start)
    ensures SectionEnd(lines[i := x], start) == SectionEnd(lines, start)
    ensures forall j :: 0 <= j < |lines| && j != i ==> Trims(lines[i := x])[j] == Trims(lines)[j]
    ensures Trims(lines[i := x])[i] == TrimSpace(x)
  {
    var e := SectionEnd(lines, start);
    var r := lines[i := x];
    var ts, tr := Trims(lines), Trims(r);
    assert forall j :: 0 <= j < |lines| && j != i ==> tr[j] == ts[j];
    assert First(tr, SectionNamed(section), 0, |tr|) == Some(start) by {
      SameBefore(ts, tr, SectionNamed(section), 0, start);
      assert tr[start] == ts[start];
      FirstIs(tr, SectionNamed(section), 0, |tr|, start);
    }
    assert SectionEnd(r, start) == e by {
      SameExcept(ts, tr, AnyHeader, start + 1, e, i);
      if e < |lines| {
        assert tr[e] == ts[e];
        FirstIs(tr, AnyHeader, start + 1, |tr|, e);
      } else {
        FirstNone(tr, AnyHeader, start + 1, |tr|);
      }
    }
  }

  /** Inserting a line that is not a header at the end of a section keeps the section where
      it is and makes it end after the new line; the lines before trim as before. */
  lemma InsertKeepsSection(lines: seq<string>, section: string, start: nat, x: string)
    requires FindSection(lines, section) == Some(start) && !Passes(TrimSpace(x), AnyHeader)
    ensures var e := SectionEnd(lines, start);
      var r := lines[..e] + [x] + lines[e..];
      FindSection(r, section) == Some(start) && e < SectionEnd(r, start)
      && (forall j :: 0 <= j < e ==> Trims(r)[j] == Trims(lines)[j]) && Trims(r)[e] == TrimSpace(x)
  {
    var e := SectionEnd(lines, start);
    var r := lines[..e] + [x] + lines[e..];
    var ts, tr := Trims(lines), Trims(r);
    assert forall j :: 0 <= j < e ==> r[j] == lines[j];
    assert forall j :: 0 <= j < e ==> tr[j] == ts[j];
    assert tr[e] == TrimSpace(x);
    assert First(tr, SectionNamed(section), 0, |tr|) == Some(start) by {
      SameBefore(ts, tr, SectionNamed(section), 0, start);
      FirstIs(tr, SectionNamed(section), 0, |tr|, start);
    }
    assert e < SectionEnd(r, start) by {
      SameBefore(ts, tr, AnyHeader, start + 1, e);
      NoHeaderThrough(tr, start, e);
    }
  }

  /** Lines that agree up to `hi` fail a test alike. */
  lemma SameBefore(ts: seq<string>, tr: seq<string>, t: LineTest, lo: nat, hi: nat)
    requires lo <= hi <= |ts| && hi <= |tr|
    requires forall j :: 0 <= j < hi ==> tr[j] == ts[j]
    requires forall j {:trigger Passes(ts[j], t)} :: lo <= j < hi ==> !Passes(ts[j], t)
    ensures forall j {:trigger Passes(tr[j], t)} :: lo <= j < hi ==> !Passes(tr[j], t)
  {
  }

  /** No header up to and including `e` puts the next header after it. */
  lemma NoHeaderThrough(tr: seq<string>, start: nat, e: nat)
    requires start < e < |tr|
    requires forall j {:trigger Passes(tr[j], AnyHeader)} :: start < j < e ==> !Passes(tr[j], AnyHeader)
    requires !Passes(tr[e], AnyHeader)
    ensures e < (match First(tr, AnyHeader, start + 1, |tr|) case Some(h) => h case None => |tr|)
  {
  }

  /** Lines that agree with `ts` on `lo..hi-1` except at `x`, where the line fails the test
      too, fail it all along. */
  lemma SameExcept(ts: seq<string>, tr: seq<string>, t: LineTest, lo: nat, hi: nat, x: nat)
    requires lo <= hi <= |ts| == |tr| && x < |tr| && !Passes(tr[x], t)
    requires forall j :: lo <= j < hi && j != x ==> tr[j] == ts[j]
    requires forall j {:trigger Passes(ts[j], t)} :: lo <= j < hi ==> !Passes(ts[j], t)
    ensures forall j {:trigger Passes(tr[j], t)} :: lo <= j < hi ==> !Passes(tr[j], t)
  {
    forall j | lo <= j < hi
      ensures !Passes(tr[j], t)
    {
      if j != x {
        assert tr[j] == ts[j];
      }
    }
  }

  // Locality: an upsert of one key leaves the line of another key in place.

  /** A second key's line, in the same section, that neither line can be mistaken for. */
  predicate Independent(n1: string, key1: string, n2: string, key2: string) {
    !Passes(TrimSpace(n2), AnyHeader) && !HasPrefix(TrimSpace(n2), key1) && !HasPrefix(TrimSpace(n1), key2)
  }

  /** Upserting another key keeps the first key line of the section where it is. */
  lemma UpsertPreserves(lines: seq<string>, section: string, key1: string, n1: string, key2: string, n2: string)
    requires Holds(lines, section, key1, n1) && Independent(n1, key1, n2, key2)
    ensures Holds(Upsert(lines, section, key2, n2), section, key1, n1)
  {
    if n2 != "" {
      var start := FindSection(lines, section).value;
      var e := SectionEnd(lines, start);
      var i1 := FindKey(lines, key1, start, e).value;
      match FindKey(lines, key2, start, e)
      case Some(i2) =>
        PreservesByReplace(lines, section, key1, n1, key2, n2, start, i1, i2);
      case None =>
        PreservesByInsert(lines, section, key1, n1, key2, n2, start, i1);
    }
  }

  lemma PreservesByReplace(lines: seq<string>, section: string, key1: string, n1: string, key2: string, n2: string,
                           start: nat, i1: nat, i2: nat)
    requires FindSection(lines, section) == Some(start)
    requires FindKey(lines, key1, start, SectionEnd(lines, start)) == Some(i1) && lines[i1] == n1
    requires FindKey(lines, key2, start, SectionEnd(lines, start)) == Some(i2)
    requires Independent(n1, key1, n2, key2)
    ensures Holds(lines[i2 := n2], section, key1, n1)
  {
    var e := SectionEnd(lines, start);
    var r := lines[i2 := n2];
    var ts := Trims(lines);
    assert i2 != i1 by {
      assert ts[i1] == TrimSpace(n1);
    }
    ReplaceKeepsSection(lines, section, start, i2, n2);
    var tr := Trims(r);
    assert First(tr, KeyLine(key1), start + 1, e) == Some(i1) by {
      SameExcept(ts, tr, KeyLine(key1), start + 1, i1, i2);
      assert tr[i1] == ts[i1];
      FirstIs(tr, KeyLine(key1), start + 1, e, i1);
    }
  }

  lemma PreservesByInsert(lines: seq<string>, section: string, key1: string, n1: string, key2: string, n2: string,
                          start: nat, i1: nat)
    requires FindSection(lines, section) == Some(start)
    requires FindKey(lines, key1, start, SectionEnd(lines, start)) == Some(i1) && lines[i1] == n1
    requires FindKey(lines, key2, start, SectionEnd(lines, start)).None?
    requires Independent(n1, key1, n2, key2)
    ensures Holds(var e := SectionEnd(lines, start); lines[..e] + [n2] + lines[e..], section, key1, n1)
  {
    var e := SectionEnd(lines, start);
    var r := lines[..e] + [n2] + lines[e..];
    InsertKeepsSection(lines, section, start, n2);
    var ts, tr := Trims(lines), Trims(r);
    var e2 := SectionEnd(r, start);
    assert r[i1] == n1;
    assert First(tr, KeyLine(key1), start + 1, e2) == Some(i1) by {
      SameBefore(ts, tr, KeyLine(key1), start + 1, i1);
      FirstIs(tr, KeyLine(key1), start + 1, e2, i1);
    }
  }

  // The line logic of `applySystemdNetworkConfig`.

  const Network := "[Network]"
  const DhcpOff := "DHCP=no"

  /** The `Address=` line: `ip/pfx` when a mask with a positive prefix length is given, the
      bare `ip` otherwise, and no line at all without an `ip`. */
  function AddressLine(ip: string, mask: string): string {
    if ip == "" then ""
    else if mask != "" && PrefixOf(mask) > 0 then "Address=" + ip + "/" + NatToDec(PrefixOf(mask))
    else "Address=" + ip
  }

  function GatewayLine(gw: string): string {
    if gw == "" then "" else "Gateway=" + gw
  }

  function DnsLine(dns: string): string {
    if dns == "" then "" else "DNS=" + dns
  }

  /** The file with a `[Network]` section: a blank line and the header are appended when
      no line trims to the header. */
  function WithNetwork(lines: seq<string>): seq<string> {
    if FindSection(lines, Network).Some? then lines else lines + ["", Network]
  }

  /** The four upserts, in the order `applySystemdNetworkConfig` runs them. */
  function UpsertAll(lines: seq<string>, a: string, g: string, d: string): seq<string> {
    var l1 := Upsert(lines, Network, "Address=", a);
    var l2 := Upsert(l1, Network, "Gateway=", g);
    var l3 := Upsert(l2, Network, "DNS=", d);
    Upsert(l3, Network, "DHCP=", DhcpOff)
  }

  /** What `applySystemdNetworkConfig` writes in place of `lines`. */
  function StaticLines(lines: seq<string>, ip: string, mask: string, gw: string, dns: string): seq<string> {
    UpsertAll(WithNetwork(lines), AddressLine(ip, mask), GatewayLine(gw), DnsLine(dns))
  }

  /** The line transformation of `applySystemdNetworkConfig`: make sure of the section,
      build the desired lines, then upsert the four keys in order. */
  method ApplyStaticLines(lines: seq<string>, ip: string, mask: string, gw: string, dns: string)
    returns (r: seq<string>)
    ensures r == StaticLines(lines, ip, mask, gw, dns)
  {
    r := lines;
    var at := SectionStart(r, Network);
    if at == -1 {
      r := r + ["", Network];
    }
    var addrLine := "";
    if ip != "" {
      if mask != "" {
        var pfx := MaskToPrefix(mask);
        if pfx > 0 {
          addrLine := "Address=" + ip + "/" + NatToDec(pfx);
        } else {
          addrLine := "Address=" + ip;
        }
      } else {
        addrLine := "Address=" + ip;
      }
    }
    var gwLine := "";
    if gw != "" {
      gwLine := "Gateway=" + gw;
    }
    var dnsLine := "";
    if dns != "" {
      dnsLine := "DNS=" + dns;
    }
    r := UpsertInSection(r, Network, "Address=", addrLine);
    r := UpsertInSection(r, Network, "Gateway=", gwLine);
    r := UpsertInSection(r, Network, "DNS=", dnsLine);
    r := UpsertInSection(r, Network, "DHCP=", DhcpOff);
  }

  /** A key of the `[Network]` section as written: two or more characters, no blank at
      either end, not starting a header. */
  predicate KeyShape(key: string) {
    |key| >= 2 && !IsSpace(key[0]) && !IsSpace(key[|key| - 1]) && key[0] != '['
  }

  /** A line that starts with `key` still starts with it once trimmed. */
  lemma TrimmedKeyLine(line: string, key: string)
    requires KeyShape(key) && HasPrefix(line, key)
    ensures var t := TrimSpace(line); HasPrefix(t, key) && t[0] == key[0] && t[1] == key[1] && !Passes(t, AnyHeader)
  {
    assert line == key + line[|key|..];
    TrimSpaceKeepsPrefix(key, line[|key|..]);
    var t := TrimSpace(line);
    assert t[0] == key[0];
  }

  /** Lines for two keys that differ in their first two characters never disturb each
      other. */
  lemma Distinguished(n1: string, key1: string, n2: string, key2: string)
    requires KeyShape(key1) && KeyShape(key2) && (key1[0] != key2[0] || key1[1] != key2[1])
    requires HasPrefix(n1, key1) && (n2 == "" || HasPrefix(n2, key2))
    ensures Independent(n1, key1, n2, key2)
  {
    TrimmedKeyLine(n1, key1);
    if n2 != "" {
      TrimmedKeyLine(n2, key2);
    }
  }

  /** A key line written for a key is fit to be that key's line in `[Network]`. */
  lemma NetworkKeyLine(line: string, key: string)
    requires KeyShape(key) && HasPrefix(line, key)
    ensures KeyLineFor(line, Network, key)
  {
    TrimmedKeyLine(line, key);
  }

  /** The state the four upserts leave: `DHCP=no` is the section's `DHCP=` line, and each
      of the other lines, when there is one, is its key's line. */
  predicate AllHold(lines: seq<string>, a: string, g: string, d: string) {
    Holds(lines, Network, "DHCP=", DhcpOff)
    && (a != "" ==> Holds(lines, Network, "Address=", a))
    && (g != "" ==> Holds(lines, Network, "Gateway=", g))
    && (d != "" ==> Holds(lines, Network, "DNS=", d))
  }

  /** Desired lines as `applySystemdNetworkConfig` builds them: absent, or led by their key. */
  predicate Shaped(a: string, g: string, d: string) {
    (a == "" || HasPrefix(a, "Address=")) && (g == "" || HasPrefix(g, "Gateway="))
      && (d == "" || HasPrefix(d, "DNS="))
  }

  lemma StaticLineShapes(ip: string, mask: string, gw: string, dns: string)
    ensures Shaped(AddressLine(ip, mask), GatewayLine(gw), DnsLine(dns))
  {
  }

  /** After the four upserts the `[Network]` section holds `DHCP=no` and every non-empty
      desired line. */
  lemma UpsertAllContent(lines: seq<string>, a: string, g: string, d: string)
    requires Shaped(a, g, d)
    ensures AllHold(UpsertAll(lines, a, g, d), a, g, d)
  {
    DhcpLineSet(lines, a, g, d);
    if d != "" { DnsLineKept(lines, a, g, d); }
    if g != "" { GatewayLineKept(lines, a, g, d); }
    if a != "" { AddressLineKept(lines, a, g, d); }
  }

  lemma DhcpLineSet(lines: seq<string>, a: string, g: string, d: string)
    ensures Holds(UpsertAll(lines, a, g, d), Network, "DHCP=", DhcpOff)
  {
    var l1 := Upsert(lines, Network, "Address=", a);
    var l2 := Upsert(l1, Network, "Gateway=", g);
    var l3 := Upsert(l2, Network, "DNS=", d);
    Put(l3, "DHCP=", DhcpOff);
  }

  lemma DnsLineKept(lines: seq<string>, a: string, g: string, d: string)
    requires HasPrefix(d, "DNS=")
    ensures Holds(UpsertAll(lines, a, g, d), Network, "DNS=", d)
  {
    var l1 := Upsert(lines, Network, "Address=", a);
    var l2 := Upsert(l1, Network, "Gateway=", g);
    var l3 := Upsert(l2, Network, "DNS=", d);
    Put(l2, "DNS=", d);
    Keep(l3, "DNS=", d, "DHCP=", DhcpOff);
  }

  lemma GatewayLineKept(lines: seq<string>, a: string, g: string, d: string)
    requires HasPrefix(g, "Gateway=") && (d == "" || HasPrefix(d, "DNS="))
    ensures Holds(UpsertAll(lines, a, g, d), Network, "Gateway=", g)
  {
    var l1 := Upsert(lines, Network, "Address=", a);
    var l2 := Upsert(l1, Network, "Gateway=", g);
    var l3 := Upsert(l2, Network, "DNS=", d);
    Put(l1, "Gateway=", g);
    Keep(l2, "Gateway=", g, "DNS=", d);
    Keep(l3, "Gateway=", g, "DHCP=", DhcpOff);
  }

  lemma AddressLineKept(lines: seq<string>, a: string, g: string, d: string)
    requires HasPrefix(a, "Address=") && Shaped(a, g, d)
    ensures Holds(UpsertAll(lines, a, g, d), Network, "Address=", a)
  {
    var l1 := Upsert(lines, Network, "Address=", a);
    var l2 := Upsert(l1, Network, "Gateway=", g);
    var l3 := Upsert(l2, Network, "DNS=", d);
    Put(lines, "Address=", a);
    Keep(l1, "Address=", a, "Gateway=", g);
    Keep(l2, "Address=", a, "DNS=", d);
    Keep(l3, "Address=", a, "DHCP=", DhcpOff);
  }

  /** A file in that state is left as it is. */
  lemma UpsertAllFixed(lines: seq<string>, a: string, g: string, d: string)
    requires AllHold(lines, a, g, d)
    ensures UpsertAll(lines, a, g, d) == lines
  {
    if a != "" { UpsertWhenHolds(lines, Network, "Address=", a); }
    if g != "" { UpsertWhenHolds(lines, Network, "Gateway=", g); }
    if d != "" { UpsertWhenHolds(lines, Network, "DNS=", d); }
    UpsertWhenHolds(lines, Network, "DHCP=", DhcpOff);
  }

  /** The result always has a `[Network]` section whose `DHCP=` line is `DHCP=no`, and each
      non-empty `Address=`, `Gateway=` and `DNS=` line is its key's line there. */
  lemma StaticLinesContent(lines: seq<string>, ip: string, mask: string, gw: string, dns: string)
    ensures var r := StaticLines(lines, ip, mask, gw, dns);
      FindSection(r, Network).Some? && AllHold(r, AddressLine(ip, mask), GatewayLine(gw), DnsLine(dns))
  {
    StaticLineShapes(ip, mask, gw, dns);
    UpsertAllContent(WithNetwork(lines), AddressLine(ip, mask), GatewayLine(gw), DnsLine(dns));
  }

  /** Applying the transformation twice with the same values is applying it once. */
  lemma StaticLinesIdempotent(lines: seq<string>, ip: string, mask: string, gw: string, dns: string)
    ensures var once := StaticLines(lines, ip, mask, gw, dns);
      StaticLines(once, ip, mask, gw, dns) == once
  {
    var once := StaticLines(lines, ip, mask, gw, dns);
    StaticLinesContent(lines, ip, mask, gw, dns);
    assert WithNetwork(once) == once;
    UpsertAllFixed(once, AddressLine(ip, mask), GatewayLine(gw), DnsLine(dns));
  }

  /** Upserting a key line into `[Network]` makes it the key's line. */
  lemma Put(lines: seq<string>, key: string, n: string)
    requires KeyShape(key) && HasPrefix(n, key)
    ensures Holds(Upsert(lines, Network, key, n), Network, key, n)
  {
    NetworkKeyLine(n, key);
    UpsertEstablishes(lines, Network, key, n);
  }

  /** Upserting the line of a different key into `[Network]` keeps a key's line. */
  lemma Keep(lines: seq<string>, key1: string, n1: string, key2: string, n2: string)
    requires KeyShape(key1) && KeyShape(key2) && (key1[0] != key2[0] || key1[1] != key2[1])
    requires HasPrefix(n1, key1) && (n2 == "" || HasPrefix(n2, key2))
    requires Holds(lines, Network, key1, n1)
    ensures Holds(Upsert(lines, Network, key2, n2), Network, key1, n1)
  {
    Distinguished(n1, key1, n2, key2);
    UpsertPreserves(lines, Network, key1, n1, key2, n2);
  }

  /** The `/pfx` suffix: a mask written by `prefixToMask` with a positive prefix length gives
      `ip/pfx`; a mask that is not a dotted quad, or no mask, gives the bare address. */
  lemma AddressLineSuffix(ip: string, mask: string, pfx: nat)
    requires ip != "" && 1 <= pfx <= 32
    ensures AddressLine(ip, PrefixToMask(pfx)) == "Address=" + ip + "/" + NatToDec(pfx)
    ensures ParseIPv4(TrimSpace(mask)).None? ==> AddressLine(ip, mask) == "Address=" + ip
    ensures AddressLine(ip, "") == "Address=" + ip
  {
    PrefixRoundTrip(pfx);
  }

  // Choosing the file, and the fixed contents of `applySystemdNetworkDHCP`.

  const NetworkDir := "/etc/systemd/network"

  /** The interface name used for a file name: the default-route interface when it starts
      with `eth`, `eth0` otherwise. */
  function EthIface(route: string): (r: string)
    ensures HasPrefix(r, "eth")
    ensures HasPrefix(route, "eth") ==> r == route
  {
    if route == "" || !HasPrefix(route, "eth") then "eth0" else route
  }

  /** `filepath.Join(dir, iface + ".network")` for a plain interface name. */
  function IfacePath(iface: string): string {
    NetworkDir + "/" + iface + ".network"
  }

  /** The file `applySystemdNetworkConfig` writes: the first `eth*.network` match, else the
      file named after the default-route interface. */
  function StaticTarget(matches: seq<string>, route: string): string {
    if |matches| > 0 then matches[0] else IfacePath(EthIface(route))
  }

  /** The lines written when the file does not exist yet. */
  function TemplateLines(iface: string): seq<string> {
    ["[Match]", "Name=" + iface, "", Network]
  }

  /** The lines the static rewrite starts from: the existing file split at newlines, or the
      template. */
  function StaticInput(existing: Option<string>, route: string): seq<string> {
    match existing
    case Some(content) => Split(content, '\n')
    case None => TemplateLines(EthIface(route))
  }

  /** The text `applySystemdNetworkConfig` writes. */
  function StaticContent(existing: Option<string>, route: string, ip: string, mask: string, gw: string, dns: string): string {
    Join(StaticLines(StaticInput(existing, route), ip, mask, gw, dns), '\n')
  }

  /** `filepath.Base` of a path without a trailing slash: the part after the last `/`. */
  function Base(path: string): (r: string)
    ensures '/' !in r
  {
    match LastIndexOf(path, '/')
    case Some(i) => path[i + 1..]
    case None => path
  }

  /** The file `applySystemdNetworkDHCP` writes and the interface name it puts in it. */
  function DhcpTarget(matches: seq<string>, route: string): (r: (string, string))
    ensures |matches| > 0 && matches[0] != "" ==> r.0 == matches[0]
  {
    var path := if |matches| > 0 then matches[0] else "";
    var base := Base(path);
    var iface := if |matches| > 0 && HasPrefix(base, "eth") then TrimSuffix(base, ".network") else "";
    if path == "" then (IfacePath(EthIface(route)), EthIface(route)) else (path, iface)
  }

  /** The fixed contents of a DHCP configuration. */
  function DhcpLines(iface: string): seq<string> {
    ["[Match]", "Name=" + iface, "", Network, "DHCP=yes"]
  }

  /** Both writers pick the same file, unless the first match is an empty path. */
  lemma SameTarget(matches: seq<string>, route: string)
    requires |matches| == 0 || matches[0] != ""
    ensures DhcpTarget(matches, route).0 == StaticTarget(matches, route)
  {
  }

  /** A match named `eth<n>.network` gives the interface `eth<n>`. */
  lemma DhcpIfaceFromName(dir: string, n: string)
    requires '/' !in n
    ensures DhcpTarget([dir + "/eth" + n + ".network"], "").1 == "eth" + n
  {
    var path := dir + "/eth" + n + ".network";
    var name := "eth" + n + ".network";
    assert path == (dir + "/") + name;
    LastIndexOfAppend(dir + "/", name, '/');
    assert Base(path) == name;
    assert HasPrefix(name, "eth");
    assert HasSuffix(name, ".network");
    assert TrimSuffix(name, ".network") == "eth" + n;
  }

  /** The `[Network]` header of a template or a DHCP file is its fourth line. */
  lemma FixedLinesNetwork(lines: seq<string>, iface: string)
    requires |lines| >= 4 && lines[..4] == TemplateLines(iface)
    ensures FindSection(lines, Network) == Some(3)
  {
    var ts := Trims(lines);
    assert lines[0] == "[Match]" && lines[1] == "Name=" + iface && lines[2] == "" && lines[3] == Network;
    TemplateTrims(iface);
    FirstIs(ts, SectionNamed(Network), 0, |lines|, 3);
  }

  /** Trimmed, only the template's fourth line is the `[Network]` header. */
  lemma TemplateTrims(iface: string)
    ensures TrimSpace("[Match]") != Network && TrimSpace("Name=" + iface) != Network
    ensures TrimSpace("") != Network && TrimSpace(Network) == Network
  {
    assert TrimSpace("[Match]") != Network by {
      var m := "[Match]";
      assert Trimmed(m) by { assert m[0] == '[' && m[|m| - 1] == ']'; }
      TrimSpaceOfTrimmed(m);
      assert m[1] != Network[1];
    }
    TrimmedKeyLine("Name=" + iface, "Name=");
    assert Trimmed(Network) by { assert Network[0] == '[' && Network[|Network| - 1] == ']'; }
    TrimSpaceOfTrimmed(Network);
  }

  /** A file written from the template already has its `[Network]` section. */
  lemma TemplateHasNetwork(iface: string)
    ensures WithNetwork(TemplateLines(iface)) == TemplateLines(iface)
  {
    FixedLinesNetwork(TemplateLines(iface), iface);
  }

  /** The DHCP file's `[Network]` section has `DHCP=yes` as its `DHCP=` line. */
  lemma DhcpLinesHold(iface: string)
    ensures Holds(DhcpLines(iface), Network, "DHCP=", "DHCP=yes")
  {
    var lines := DhcpLines(iface);
    var ts := Trims(lines);
    assert lines[..4] == TemplateLines(iface);
    FixedLinesNetwork(lines, iface);
    TrimSpaceOfTrimmed("DHCP=yes");
    assert ts[4] == "DHCP=yes";
    FirstSkip(ts, AnyHeader, 4, 5);
    FirstHit(ts, KeyLine("DHCP="), 4, 5);
  }
}
