/**
 * The agent's identity and stored configuration (main.go):
 * `generateUniqueID` with the clock reading as a parameter, the
 * `ensureUniqueID` read-or-create rule over an abstract store, and the merge
 * `saveConfig` applies to the stored record.
 */
module Identity {
  import opened Wrappers
  import opened Text
  import opened AgentCodec

  // `generateUniqueID`.

  /** A text of upper-case hexadecimal digits. */
  predicate UpperHex(s: string) {
    forall i :: 0 <= i < |s| ==> IsHexUpperDigit(s[i])
  }

  /** `"0"` followed by the upper-case hexadecimal of the timestamp. */
  function Padded(ts: nat): (r: string)
    ensures |r| >= 2 && r[0] == '0' && UpperHex(r)
  {
    "0" + ToUpper(FormatHex(ts))
  }

  /** Glue the pieces together. */
  function Concat(parts: seq<string>): string {
    if parts == [] then [] else parts[0] + Concat(parts[1..])
  }

  /** The text cut into groups of four characters; the last group holds what is left. */
  function Chunks(s: string): (r: seq<string>)
    ensures |r| >= 1 && Concat(r) == s
    ensures forall k :: 0 <= k < |r| - 1 ==> |r[k]| == 4
    ensures s != [] ==> 1 <= |r[|r| - 1]| <= 4
    decreases |s|
  {
    if |s| <= 4 then [s]
    else
      var rest := Chunks(s[4..]);
      assert s == s[..4] + s[4..];
      [s[..4]] + rest
  }

  /** The identifier generated at timestamp `ts` (milliseconds since the epoch). */
  function UniqueID(ts: nat): string {
    Join(Chunks(Padded(ts)), '-')
  }

  /** The part of the dashed text the loop still has to write from index `i` on. */
  function DashedFrom(s: string, i: nat): string {
    if i < |s| then Join(Chunks(s[i..]), '-') else ""
  }

  /** `generateUniqueID` for the clock reading `ts`: step through the padded text four
      characters at a time, writing a `-` after every group but the last. */
  method GenerateUniqueID(ts: nat) returns (id: string)
    ensures id == UniqueID(ts)
  {
    var padded := Padded(ts);
    var sb := "";
    var i := 0;
    while i < |padded|
      invariant sb + DashedFrom(padded, i) == Join(Chunks(padded), '-')
      decreases |padded| - i
    {
      var end := i + 4;
      if end > |padded| {
        end := |padded|;
      }
      DashedAdvance(padded, i, sb);
      sb := sb + padded[i..end];
      if end < |padded| {
        sb := sb + "-";
      }
      i := i + 4;
    }
    id := sb;
  }

  /** One round of the loop. */
  lemma DashedStep(s: string, i: nat)
    requires i < |s|
    ensures i + 4 < |s| ==> DashedFrom(s, i) == s[i..i + 4] + "-" + DashedFrom(s, i + 4)
    ensures i + 4 >= |s| ==> DashedFrom(s, i) == s[i..] && DashedFrom(s, i + 4) == ""
  {
    var t := s[i..];
    if i + 4 < |s| {
      assert t[..4] == s[i..i + 4];
      assert t[4..] == s[i + 4..];
      var rest := Chunks(t[4..]);
      assert Chunks(t) == [t[..4]] + rest;
      assert Join(Chunks(t), '-') == t[..4] + ['-'] + Join(rest, '-');
    }
  }

  /** What one round appends, followed by what is left to write, is what was left before. */
  lemma DashedAdvance(s: string, i: nat, before: string)
    requires i < |s|
    ensures var end := if i + 4 > |s| then |s| else i + 4;
      before + s[i..end] + (if end < |s| then "-" else "") + DashedFrom(s, i + 4) == before + DashedFrom(s, i)
  {
    DashedStep(s, i);
    if i + 4 < |s| {
      var x, r := s[i..i + 4], DashedFrom(s, i + 4);
      assert before + x + "-" + r == before + (x + "-" + r);
    } else {
      assert DashedFrom(s, i + 4) == "";
    }
  }

  /** The groups of upper-case hexadecimal text are upper-case hexadecimal. */
  lemma {:induction false} ChunksOfHex(s: string)
    requires UpperHex(s)
    ensures forall k :: 0 <= k < |Chunks(s)| ==> UpperHex(Chunks(s)[k]) && '-' !in Chunks(s)[k]
    decreases |s|
  {
    if |s| > 4 {
      ChunksOfHex(s[4..]);
      assert Chunks(s) == [s[..4]] + Chunks(s[4..]);
    }
  }

  /** The last character of a join is the last character of the last part. */
  lemma {:induction false} JoinLast(parts: seq<string>, c: char)
    requires |parts| >= 1 && parts[|parts| - 1] != []
    ensures var s := Join(parts, c); |s| > 0 && s[|s| - 1] == parts[|parts| - 1][|parts[|parts| - 1]| - 1]
    decreases |parts|
  {
    if |parts| > 1 {
      assert parts[1..][|parts[1..]| - 1] == parts[|parts| - 1];
      JoinLast(parts[1..], c);
    }
  }

  /** The first character of a join is the first character of the first part. */
  lemma JoinFirst(parts: seq<string>, c: char)
    requires |parts| >= 1 && parts[0] != []
    ensures var s := Join(parts, c); |s| > 0 && s[0] == parts[0][0]
  {
  }

  /** The text with every `c` removed (`strings.ReplaceAll(s, "-", "")`). */
  function Without(s: string, c: char): string {
    if s == [] then [] else (if s[0] == c then [] else [s[0]]) + Without(s[1..], c)
  }

  lemma {:induction false} WithoutAppend(a: string, b: string, c: char)
    ensures Without(a + b, c) == Without(a, c) + Without(b, c)
    decreases |a|
  {
    if a == [] {
      assert a + b == b;
    } else {
      assert (a + b)[1..] == a[1..] + b;
      WithoutAppend(a[1..], b, c);
    }
  }

  lemma {:induction false} WithoutAbsent(s: string, c: char)
    requires c !in s
    ensures Without(s, c) == s
    decreases |s|
  {
    if s != [] {
      WithoutAbsent(s[1..], c);
    }
  }

  /** Removing the separators from a join glues the parts. */
  lemma {:induction false} WithoutJoin(parts: seq<string>, c: char)
    requires forall k :: 0 <= k < |parts| ==> c !in parts[k]
    ensures Without(Join(parts, c), c) == Concat(parts)
    decreases |parts|
  {
    if |parts| == 1 {
      WithoutAbsent(parts[0], c);
      assert Concat(parts) == parts[0] + Concat([]);
    } else if |parts| > 1 {
      WithoutJoin(parts[1..], c);
      WithoutAppend(parts[0] + [c], Join(parts[1..], c), c);
      WithoutAppend(parts[0], [c], c);
      WithoutAbsent(parts[0], c);
    }
  }

  /** The identifier's shape: it starts with `0`; splitting it at `-` gives groups of four
      with a last group of one to four; it neither starts nor ends with `-`; and without
      the dashes it is `0` followed by the upper-case hexadecimal of the timestamp. */
  lemma UniqueIDShape(ts: nat)
    ensures var id := UniqueID(ts);
      var groups := Split(id, '-');
      id[0] == '0' && id[|id| - 1] != '-'
      && Concat(groups) == Padded(ts) && Without(id, '-') == Padded(ts)
      && (forall k :: 0 <= k < |groups| - 1 ==> |groups[k]| == 4)
      && 1 <= |groups[|groups| - 1]| <= 4
  {
    var p := Padded(ts);
    var cs := Chunks(p);
    ChunksOfHex(p);
    assert |cs[0]| >= 1 && cs[0][0] == p[0] by {
      if |p| <= 4 {
      } else {
        assert cs[0] == p[..4];
      }
    }
    JoinFirst(cs, '-');
    JoinLast(cs, '-');
    SplitJoin(cs, '-');
    WithoutJoin(cs, '-');
    var last := cs[|cs| - 1];
    assert last[|last| - 1] in last;
  }

  // `ensureUniqueID` over the identifier file and `/etc/hostname`.

  /** What the identifier file yields: its trimmed content when that is not empty. */
  function StoredID(file: Option<string>): Option<string> {
    match file
    case Some(b) => if TrimSpace(b) != "" then Some(TrimSpace(b)) else None
    case None => None
  }

  /** The files `ensureUniqueID` reads and writes. */
  class IdentityFiles {
    var idFile: Option<string>
    var hostnameFile: Option<string>

    constructor (idFile0: Option<string>, hostname0: Option<string>)
      ensures idFile == idFile0 && hostnameFile == hostname0
    {
      idFile := idFile0;
      hostnameFile := hostname0;
    }

    /** `ensureUniqueID`: a stored identifier is returned as it is; otherwise one is generated
        from `ts`, written (when `idWriteOk`), and the host name set to `Kan-<id>` (when
        `hostWriteOk` as well). A failed identifier write still returns the new identifier,
        with the error flag set. */
    method EnsureUniqueID(ts: nat, idWriteOk: bool, hostWriteOk: bool) returns (id: string, failed: bool)
      modifies this
      ensures StoredID(old(idFile)).Some? ==>
        id == StoredID(old(idFile)).value && !failed && idFile == old(idFile) && hostnameFile == old(hostnameFile)
      ensures StoredID(old(idFile)).None? ==> id == UniqueID(ts) && failed == !idWriteOk
      ensures StoredID(old(idFile)).None? && idWriteOk ==>
        idFile == Some(id) && hostnameFile == (if hostWriteOk then Some("Kan-" + id) else old(hostnameFile))
      ensures StoredID(old(idFile)).None? && !idWriteOk ==> idFile == old(idFile) && hostnameFile == old(hostnameFile)
    {
      if idFile.Some? {
        var t := TrimSpace(idFile.value);
        if t != "" {
          return t, false;
        }
      }
      id := GenerateUniqueID(ts);
      if !idWriteOk {
        return id, true;
      }
      idFile := Some(id);
      if hostWriteOk {
        hostnameFile := Some("Kan-" + id);
      }
      failed := false;
    }
  }

  /** A generated identifier has no blank at either end. */
  lemma UniqueIDTrimmed(ts: nat)
    ensures Trimmed(UniqueID(ts))
  {
    UniqueIDShape(ts);
    var id := UniqueID(ts);
    var p := Padded(ts);
    var last := id[|id| - 1];
    assert id[0] == '0';
    LastCharOfChunks(p);
  }

  /** The last character of the dashed text is a character of the undashed one. */
  lemma LastCharOfChunks(s: string)
    requires s != []
    ensures var id := Join(Chunks(s), '-'); |id| > 0 && id[|id| - 1] in s
  {
    var cs := Chunks(s);
    JoinLast(cs, '-');
    var last := cs[|cs| - 1];
    assert last[|last| - 1] in last;
  }

  /** Once written, the identifier is the one every later request reads back. */
  lemma StoredIDStable(ts: nat)
    ensures StoredID(Some(UniqueID(ts))) == Some(UniqueID(ts))
  {
    UniqueIDTrimmed(ts);
    TrimSpaceOfTrimmed(UniqueID(ts));
    UniqueIDShape(ts);
  }

  // The `saveConfig` merge.

  /** The stored record after `saveConfig`: each non-empty incoming field replaces the stored
      one; an empty incoming field keeps it. */
  function Merge(existing: DeviceConfig, cfg: DeviceConfig): DeviceConfig {
    DeviceConfig(
      if cfg.id != "" then cfg.id else existing.id,
      if cfg.ip != "" then cfg.ip else existing.ip,
      if cfg.port != "" then cfg.port else existing.port)
  }

  const NoConfig := DeviceConfig("", "", "")

  /** An incoming record with no fields changes nothing. */
  lemma MergeNothing(existing: DeviceConfig)
    ensures Merge(existing, NoConfig) == existing
  {
  }

  /** Saving the same record twice is saving it once. */
  lemma MergeIdempotent(existing: DeviceConfig, cfg: DeviceConfig)
    ensures Merge(Merge(existing, cfg), cfg) == Merge(existing, cfg)
  {
  }

  /** Two saves in a row are one save of the second record merged over the first. */
  lemma MergeTwice(existing: DeviceConfig, a: DeviceConfig, b: DeviceConfig)
    ensures Merge(Merge(existing, a), b) == Merge(existing, Merge(a, b))
  {
  }

  /** A record with every field set replaces whatever was stored. */
  lemma MergeFull(existing: DeviceConfig, cfg: DeviceConfig)
    requires cfg.id != "" && cfg.ip != "" && cfg.port != ""
    ensures Merge(existing, cfg) == cfg
  {
  }

  /** The file `saveConfig` rewrites, `None` while it does not exist or cannot be read. */
  class ConfigFile {
    var stored: Option<DeviceConfig>

    constructor (stored0: Option<DeviceConfig>)
      ensures stored == stored0
    {
      stored := stored0;
    }

    /** `saveConfig`: read the stored record (empty when there is none), overwrite the fields
        the incoming record sets, and write it back when `writeOk`. */
    method SaveConfig(cfg: DeviceConfig, writeOk: bool) returns (ok: bool)
      modifies this
      ensures ok == writeOk
      ensures stored == if writeOk then Some(Merge(old(stored).GetOr(NoConfig), cfg)) else old(stored)
    {
      var existing := NoConfig;
      if stored.Some? {
        existing := stored.value;
      }
      if cfg.id != "" {
        existing := existing.(id := cfg.id);
      }
      if cfg.ip != "" {
        existing := existing.(ip := cfg.ip);
      }
      if cfg.port != "" {
        existing := existing.(port := cfg.port);
      }
      if !writeOk {
        return false;
      }
      stored := Some(existing);
      ok := true;
    }
  }
}
