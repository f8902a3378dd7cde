/**
 * The `K=V` segments every message of the protocol is made of. Agent and
 * controller parse a message the same way: split it on `|`, split each
 * segment at its first `=`, skip segments without one, compare the
 * upper-cased trimmed key, keep the trimmed value, and let a later segment
 * overwrite an earlier one (main.go, cmd/discover_gui/main.go).
 */
module KeyValue {
  import opened Wrappers
  import opened Text

  /** The key (upper-cased, trimmed) and the trimmed value of one segment, or None
      when the segment has no `=`. */
  function Segment(p: string): (r: Option<(string, string)>)
    ensures r.None? <==> '=' !in p
    ensures r.Some? ==> Trimmed(r.value.1)
  {
    match Cut(p, '=')
    case None => None
    case Some((k, v)) => Some((ToUpper(TrimSpace(k)), TrimSpace(v)))
  }

  /** Each segment's key and value, in message order. */
  function Parsed(segs: seq<string>): (r: seq<Option<(string, string)>>)
    ensures |r| == |segs|
  {
    if segs == [] then [] else Parsed(segs[..|segs| - 1]) + [Segment(segs[|segs| - 1])]
  }

  lemma {:induction false} ParsedAt(segs: seq<string>, i: nat)
    requires i < |segs|
    ensures Parsed(segs)[i] == Segment(segs[i])
    decreases |segs|
  {
    if i < |segs| - 1 {
      ParsedAt(segs[..|segs| - 1], i);
    }
  }

  lemma ParsedAppend(segs: seq<string>, p: string)
    ensures Parsed(segs + [p]) == Parsed(segs) + [Segment(p)]
  {
    assert (segs + [p])[..|segs|] == segs;
  }

  lemma {:induction false} ParsedConcat(a: seq<string>, b: seq<string>)
    ensures Parsed(a + b) == Parsed(a) + Parsed(b)
    decreases |b|
  {
    if b == [] {
      assert a + b == a;
    } else {
      var n := |b| - 1;
      assert a + b == (a + b[..n]) + [b[n]];
      ParsedAppend(a + b[..n], b[n]);
      ParsedConcat(a, b[..n]);
      ParsedAppend(b[..n], b[n]);
      assert b == b[..n] + [b[n]];
    }
  }

  /** The parsed segment assigns to one of `keys`. */
  predicate Assigns(kv: Option<(string, string)>, keys: set<string>) {
    kv.Some? && kv.value.0 in keys
  }

  /** The value of the last parsed segment that assigns to one of `keys`. */
  function LastAssigned(kvs: seq<Option<(string, string)>>, keys: set<string>): (r: Option<string>)
    ensures r.None? <==> forall i :: 0 <= i < |kvs| ==> !Assigns(kvs[i], keys)
  {
    if kvs == [] then None
    else
      var last := kvs[|kvs| - 1];
      var init := kvs[..|kvs| - 1];
      if Assigns(last, keys) then Some(last.value.1)
      else
        var r := LastAssigned(init, keys);
        assert forall i :: 0 <= i < |init| ==> init[i] == kvs[i];
        r
  }

  /** The value of the last segment of the message that assigns to one of `keys`. */
  function LastValue(segs: seq<string>, keys: set<string>): Option<string> {
    LastAssigned(Parsed(segs), keys)
  }

  /** The last assigning segment decides: when segment `i` assigns to `keys` and no
      later one does, its value is the result, whatever came before. */
  lemma {:induction false} LastAssignedAt(kvs: seq<Option<(string, string)>>, keys: set<string>, i: nat)
    requires i < |kvs| && Assigns(kvs[i], keys)
    requires forall j :: i < j < |kvs| ==> !Assigns(kvs[j], keys)
    ensures LastAssigned(kvs, keys) == Some(kvs[i].value.1)
    decreases |kvs|
  {
    if i < |kvs| - 1 {
      var init := kvs[..|kvs| - 1];
      assert !Assigns(kvs[|kvs| - 1], keys);
      assert init[i] == kvs[i];
      LastAssignedAt(init, keys, i);
    }
  }

  /** A later run of segments overrides an earlier one. */
  lemma {:induction false} LastAssignedConcat(a: seq<Option<(string, string)>>, b: seq<Option<(string, string)>>, keys: set<string>)
    ensures LastAssigned(a + b, keys) == if LastAssigned(b, keys).Some? then LastAssigned(b, keys) else LastAssigned(a, keys)
    decreases |b|
  {
    if b == [] {
      assert a + b == a;
    } else {
      assert (a + b)[..|a + b| - 1] == a + b[..|b| - 1];
      if !Assigns(b[|b| - 1], keys) {
        LastAssignedConcat(a, b[..|b| - 1], keys);
      }
    }
  }

  lemma LastValueConcat(a: seq<string>, b: seq<string>, keys: set<string>)
    ensures LastValue(a + b, keys) == if LastValue(b, keys).Some? then LastValue(b, keys) else LastValue(a, keys)
  {
    ParsedConcat(a, b);
    LastAssignedConcat(Parsed(a), Parsed(b), keys);
  }

  /** The segment `k=v`. */
  function Pair(k: string, v: string): string {
    k + "=" + v
  }

  /** A well-formed key (trimmed, upper-case, no `=`) and trimmed value come back out of
      their segment unchanged. */
  lemma SegmentOfPair(k: string, v: string)
    requires '=' !in k && Trimmed(k) && NoLower(k) && Trimmed(v)
    ensures Segment(Pair(k, v)) == Some((k, v))
  {
    CutAt(k, '=', v);
    TrimSpaceOfTrimmed(k);
    TrimSpaceOfTrimmed(v);
    ToUpperOfNoLower(k);
  }

  /** The segment `k=v` when `v` is not empty, no segment otherwise: how both sides build
      messages from optional fields. */
  function Optional(k: string, v: string): seq<string> {
    if v == "" then [] else [Pair(k, v)]
  }

  /** The text `|k=v` when `v` is not empty, nothing otherwise. */
  function OptionalText(k: string, v: string): (r: string)
    ensures v == "" <==> r == ""
  {
    if v == "" then "" else "|" + Pair(k, v)
  }

  lemma PrefixedOptional(k: string, v: string)
    ensures Prefixed(Optional(k, v), '|') == OptionalText(k, v)
  {
    if v != "" {
      assert Optional(k, v)[1..] == [];
    }
  }

  /** A message of one segment. */
  lemma LastValueOne(p: string, keys: set<string>)
    ensures LastValue([p], keys) == if Assigns(Segment(p), keys) then Some(Segment(p).value.1) else None
  {
    assert [p][..0] == [];
    assert Parsed([p]) == [Segment(p)];
  }

  /** One more segment either assigns, and then decides, or leaves the value as it was. */
  lemma LastValueAppend(segs: seq<string>, p: string, keys: set<string>)
    ensures LastValue(segs + [p], keys) == if Assigns(Segment(p), keys) then Some(Segment(p).value.1) else LastValue(segs, keys)
  {
    ParsedAppend(segs, p);
    var kvs := Parsed(segs) + [Segment(p)];
    assert kvs[..|kvs| - 1] == Parsed(segs);
  }

  /** A segment without `=` assigns nothing, wherever it stands. */
  lemma LastValueSkip(a: seq<string>, p: string, b: seq<string>, keys: set<string>)
    requires '=' !in p
    ensures LastValue(a + [p] + b, keys) == LastValue(a + b, keys)
  {
    LastValueConcat(a + [p], b, keys);
    LastValueConcat(a, b, keys);
    LastValueAppend(a, p, keys);
  }

  /** The key of a segment is compared after trimming and case mapping, so `id=x`,
      ` Id =x` and `ID=x` assign the same key the same value. */
  lemma SegmentFoldsKey(k1: string, k2: string, v: string)
    requires '=' !in k1 && '=' !in k2 && EqualFold(TrimSpace(k1), TrimSpace(k2))
    ensures Segment(Pair(k1, v)) == Segment(Pair(k2, v))
    ensures Segment(Pair(k1, v)) == Some((ToUpper(TrimSpace(k1)), TrimSpace(v)))
  {
    CutAt(k1, '=', v);
    CutAt(k2, '=', v);
    EqualFoldUpper(TrimSpace(k1), TrimSpace(k2));
  }
}
