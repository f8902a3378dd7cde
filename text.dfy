/**
 * The handful of Go `strings`/`strconv` operations the protocol code relies on,
 * over `string` = `seq<char>`.  White space is Go's `unicode.IsSpace`; case
 * mapping covers ASCII letters only.
 */
module Text {
  import opened Wrappers

  /** `unicode.IsSpace`: the characters `strings.TrimSpace` and `strings.Fields` treat as blanks. */
  predicate IsSpace(c: char) {
    c == ' ' || c == '\t' || c == '\n' || c == '\U{000B}' || c == '\U{000C}' || c == '\r'
    || c == '\U{0085}' || c == '\U{00A0}' || c == '\U{1680}'
    || ('\U{2000}' <= c <= '\U{200A}')
    || c == '\U{2028}' || c == '\U{2029}' || c == '\U{202F}' || c == '\U{205F}' || c == '\U{3000}'
  }

  /** No blank at either end: what `strings.TrimSpace` returns. */
  predicate Trimmed(s: string) {
    s == [] || (!IsSpace(s[0]) && !IsSpace(s[|s| - 1]))
  }

  /** `strings.TrimSpace`: drops the blanks at both ends, one character at a time. */
  function TrimSpace(s: string): (r: string)
    ensures Trimmed(r) && |r| <= |s|
    decreases |s|
  {
    if s == [] then s
    else if IsSpace(s[0]) then TrimSpace(s[1..])
    else if IsSpace(s[|s| - 1]) then TrimSpace(s[..|s| - 1])
    else s
  }

  /** A string with no blank at either end is its own trim. */
  lemma TrimSpaceOfTrimmed(s: string)
    requires Trimmed(s)
    ensures TrimSpace(s) == s
  {
  }

  /** Trimming adds no character. */
  lemma {:induction false} TrimSpaceWithout(s: string, c: char)
    requires c !in s
    ensures c !in TrimSpace(s)
    decreases |s|
  {
    if s != [] && IsSpace(s[0]) {
      assert c !in s[1..];
      TrimSpaceWithout(s[1..], c);
    } else if s != [] && IsSpace(s[|s| - 1]) {
      assert c !in s[..|s| - 1];
      TrimSpaceWithout(s[..|s| - 1], c);
    }
  }

  /** `strings.TrimSpace` is idempotent. */
  lemma TrimSpaceIdempotent(s: string)
    ensures TrimSpace(TrimSpace(s)) == TrimSpace(s)
  {
    TrimSpaceOfTrimmed(TrimSpace(s));
  }

  /** Trimming `p + x`, where `p` is a non-empty text with non-blank ends, keeps `p` at the front. */
  lemma {:induction false} TrimSpaceKeepsPrefix(p: string, x: string)
    requires p != [] && !IsSpace(p[0]) && !IsSpace(p[|p| - 1])
    ensures HasPrefix(TrimSpace(p + x), p)
    decreases |x|
  {
    var s := p + x;
    assert s[0] == p[0];
    if x == [] {
      assert s == p;
    } else if IsSpace(s[|s| - 1]) {
      assert s[..|s| - 1] == p + x[..|x| - 1];
      TrimSpaceKeepsPrefix(p, x[..|x| - 1]);
    } else {
      assert s[..|p|] == p;
    }
  }

  /** `strings.HasPrefix`. */
  predicate HasPrefix(s: string, p: string) {
    |p| <= |s| && s[..|p|] == p
  }

  /** `strings.HasSuffix`. */
  predicate HasSuffix(s: string, p: string) {
    |p| <= |s| && s[|s| - |p|..] == p
  }

  /** `strings.Contains`: `sub` occurs at some position of `s`. */
  predicate Contains(s: string, sub: string) {
    exists i :: 0 <= i <= |s| - |sub| && OccursAt(s, sub, i)
  }

  /** `sub` occurs in `s` starting at position `i`. */
  predicate OccursAt(s: string, sub: string, i: int) {
    0 <= i <= |s| - |sub| && s[i..i + |sub|] == sub
  }

  /** A word found in a slice of a text is found in the text. */
  lemma {:induction false} ContainsSlice(s: string, i: nat, j: nat, w: string)
    requires i <= j <= |s| && Contains(s[i..j], w)
    ensures Contains(s, w)
  {
    var k :| 0 <= k <= (j - i) - |w| && OccursAt(s[i..j], w, k);
    forall t | 0 <= t < |w| ensures s[i + k + t] == w[t] {
      assert s[i..j][k..k + |w|][t] == w[t];
    }
    assert s[i + k..i + k + |w|] == w;
    assert OccursAt(s, w, i + k);
  }

  /** A word without `c`, found in `x`, `c`, `y`, is found in `x` or in `y`. */
  lemma {:induction false} ContainsAcross(x: string, c: char, y: string, w: string)
    requires c !in w
    ensures Contains(x + [c] + y, w) ==> Contains(x, w) || Contains(y, w)
  {
    if Contains(x + [c] + y, w) {
      var s := x + [c] + y;
      var k :| 0 <= k <= |s| - |w| && OccursAt(s, w, k);
      assert forall p :: k <= p < k + |w| ==> s[p] == w[p - k];
      assert s[|x|] == c;
      if k + |w| <= |x| {
        assert x[k..k + |w|] == s[k..k + |w|];
        assert OccursAt(x, w, k);
      } else if k > |x| {
        assert s[|x| + 1..] == y;
        assert y[k - |x| - 1..k - |x| - 1 + |w|] == s[k..k + |w|];
        assert OccursAt(y, w, k - |x| - 1);
      } else {
        assert false;
      }
    }
  }

  /** Trimming keeps a contiguous part of the text. */
  lemma {:induction false} TrimSpaceSlice(s: string) returns (i: nat, j: nat)
    ensures i <= j <= |s| && TrimSpace(s) == s[i..j]
    decreases |s|
  {
    if s == [] {
      i, j := 0, 0;
    } else if IsSpace(s[0]) {
      var i1, j1 := TrimSpaceSlice(s[1..]);
      i, j := i1 + 1, j1 + 1;
      assert s[1..][i1..j1] == s[i..j];
    } else if IsSpace(s[|s| - 1]) {
      i, j := TrimSpaceSlice(s[..|s| - 1]);
      assert s[..|s| - 1][i..j] == s[i..j];
    } else {
      i, j := 0, |s|;
      assert s[0..|s|] == s;
    }
  }

  /** Upper-casing a slice is slicing the upper-cased text. */
  lemma {:induction false} ToUpperSlice(s: string, i: nat, j: nat)
    requires i <= j <= |s|
    ensures ToUpper(s[i..j]) == ToUpper(s)[i..j]
  {
    SplitThree(s, i, j);
    UpperMiddle(s[..i], s[i..j], s[j..]);
  }

  lemma {:induction false} SplitThree(s: string, i: nat, j: nat)
    requires i <= j <= |s|
    ensures s == s[..i] + s[i..j] + s[j..]
  {
  }

  lemma {:induction false} UpperMiddle(a: string, t: string, b: string)
    ensures ToUpper(a + t + b)[|a|..|a| + |t|] == ToUpper(t)
  {
    ToUpperAppend(a + t, b);
    ToUpperAppend(a, t);
    MiddleSlice(ToUpper(a), ToUpper(t), ToUpper(b));
  }

  lemma {:induction false} MiddleSlice(x: string, y: string, z: string)
    ensures (x + y + z)[|x|..|x| + |y|] == y
  {
  }

  /** A word the upper-cased trim holds is held by the upper-cased text. */
  lemma {:induction false} TrimmedWord(s: string, w: string)
    ensures Contains(ToUpper(TrimSpace(s)), w) ==> Contains(ToUpper(s), w)
  {
    var i, j := TrimSpaceSlice(s);
    ToUpperSlice(s, i, j);
    if Contains(ToUpper(s)[i..j], w) {
      ContainsSlice(ToUpper(s), i, j, w);
    }
  }

  /** `strings.TrimPrefix`. */
  function TrimPrefix(s: string, p: string): (r: string)
    ensures HasPrefix(s, p) ==> s == p + r
    ensures !HasPrefix(s, p) ==> r == s
  {
    if HasPrefix(s, p) then s[|p|..] else s
  }

  /** `strings.TrimSuffix`. */
  function TrimSuffix(s: string, p: string): (r: string)
    ensures HasSuffix(s, p) ==> s == r + p
    ensures !HasSuffix(s, p) ==> r == s
  {
    if HasSuffix(s, p) then s[..|s| - |p|] else s
  }

  /** Upper-case of one character (ASCII letters only). */
  function UpperChar(c: char): char {
    if 'a' <= c <= 'z' then (c as int - 'a' as int + 'A' as int) as char else c
  }

  /** `strings.ToUpper`, restricted to ASCII letters. */
  function ToUpper(s: string): (r: string)
    ensures |r| == |s| && forall i :: 0 <= i < |s| ==> r[i] == UpperChar(s[i])
  {
    if s == [] then [] else [UpperChar(s[0])] + ToUpper(s[1..])
  }

  lemma ToUpperAppend(a: string, b: string)
    ensures ToUpper(a + b) == ToUpper(a) + ToUpper(b)
  {
    assert ToUpper(a + b) == ToUpper(a) + ToUpper(b);
  }

  /** A text without lower-case ASCII letters is its own upper-case. */
  predicate NoLower(s: string) {
    forall i :: 0 <= i < |s| ==> !('a' <= s[i] <= 'z')
  }

  lemma ToUpperOfNoLower(s: string)
    requires NoLower(s)
    ensures ToUpper(s) == s
  {
  }

  lemma ToUpperIdempotent(s: string)
    ensures ToUpper(ToUpper(s)) == ToUpper(s)
  {
    ToUpperOfNoLower(ToUpper(s));
  }

  /** `strings.EqualFold` on ASCII: the same length, and equal letter by letter after case
      mapping. */
  predicate EqualFold(a: string, b: string) {
    |a| == |b| && forall i :: 0 <= i < |a| ==> UpperChar(a[i]) == UpperChar(b[i])
  }

  /** Folding compares the upper-cased strings. */
  lemma EqualFoldUpper(a: string, b: string)
    ensures EqualFold(a, b) <==> ToUpper(a) == ToUpper(b)
  {
    if ToUpper(a) == ToUpper(b) {
      assert forall i :: 0 <= i < |a| ==> UpperChar(a[i]) == ToUpper(a)[i];
    }
  }

  /** First position of `c` in `s`. */
  function IndexOf(s: string, c: char): (r: Option<nat>)
    ensures r.None? <==> c !in s
    ensures r.Some? ==> r.value < |s| && s[r.value] == c && c !in s[..r.value]
  {
    if s == [] then None
    else if s[0] == c then Some(0)
    else match IndexOf(s[1..], c)
      case None => None
      case Some(i) =>
        assert s[1..][..i] == s[1..i + 1];
        Some(i + 1)
  }

  /** The first `c` of `s` is at `j` when `s[j]` is `c` and no earlier character is. */
  lemma IndexOfAt(s: string, c: char, j: nat)
    requires j < |s| && s[j] == c && c !in s[..j]
    ensures IndexOf(s, c) == Some(j)
  {
    assert c in s by { assert s[j] == c; }
  }

  /** Last position of `c` in `s` (`strings.LastIndex` with a one-character needle). */
  function LastIndexOf(s: string, c: char): (r: Option<nat>)
    ensures r.None? <==> c !in s
    ensures r.Some? ==> r.value < |s| && s[r.value] == c && c !in s[r.value + 1..]
  {
    if s == [] then None
    else if s[|s| - 1] == c then Some(|s| - 1)
    else
      var r := LastIndexOf(s[..|s| - 1], c);
      assert r.Some? ==> s[r.value + 1..] == s[..|s| - 1][r.value + 1..] + [s[|s| - 1]];
      r
  }

  /** `strings.Split(s, string(c))`: the pieces between occurrences of `c`, always at least one. */
  function Split(s: string, c: char): (r: seq<string>)
    ensures |r| >= 1
    ensures forall k :: 0 <= k < |r| ==> c !in r[k]
    decreases |s|
  {
    match IndexOf(s, c)
    case None => [s]
    case Some(i) => [s[..i]] + Split(s[i + 1..], c)
  }

  /** `strings.Join(parts, string(c))`. */
  function Join(parts: seq<string>, c: char): string
  {
    if parts == [] then []
    else if |parts| == 1 then parts[0]
    else parts[0] + [c] + Join(parts[1..], c)
  }

  lemma Join4(a: string, b: string, c: string, d: string, sep: char)
    ensures Join([a, b, c, d], sep) == a + [sep] + b + [sep] + c + [sep] + d
  {
    assert Join([d], sep) == d;
    assert [c, d][1..] == [d];
    assert Join([c, d], sep) == c + [sep] + d;
    assert [b, c, d][1..] == [c, d];
    assert Join([b, c, d], sep) == b + [sep] + c + [sep] + d;
    assert [a, b, c, d][1..] == [b, c, d];
  }

  /** Splitting a join recovers the parts when no part holds the separator. */
  lemma {:induction false} SplitJoin(parts: seq<string>, c: char)
    requires |parts| >= 1
    requires forall k :: 0 <= k < |parts| ==> c !in parts[k]
    ensures Split(Join(parts, c), c) == parts
  {
    if |parts| > 1 {
      var h, t := parts[0], parts[1..];
      assert Join(parts, c) == h + [c] + Join(t, c);
      assert Split(h + [c] + Join(t, c), c) == [h] + Split(Join(t, c), c) by {
        SplitAppendA(h, c, Join(t, c));
      }
      SplitJoin(t, c);
      assert parts == [h] + t;
    }
  }

  /** Splitting at the first separator. */
  lemma SplitAtFirst(s: string, c: char, i: nat)
    requires i < |s| && s[i] == c && c !in s[..i]
    ensures Split(s, c) == [s[..i]] + Split(s[i + 1..], c)
  {
    IndexOfAt(s, c, i);
  }

  lemma SplitNone(s: string, c: char)
    requires c !in s
    ensures Split(s, c) == [s]
  {
  }

  lemma SplitAppendA(a: string, c: char, b: string)
    requires c !in a
    ensures Split(a + [c] + b, c) == [a] + Split(b, c)
  {
    var s := a + [c] + b;
    assert s[..|a|] == a;
    SplitAtFirst(s, c, |a|);
    assert s[|a| + 1..] == b;
  }

  lemma SplitAppendB(a: string, c: char, b: string, i: nat)
    requires i < |a| && a[i] == c && c !in a[..i]
    ensures Split(a + [c] + b, c) == [a[..i]] + Split(a[i + 1..] + [c] + b, c)
  {
    var s := a + [c] + b;
    assert s[..i] == a[..i];
    SplitAtFirst(s, c, i);
    assert s[i + 1..] == a[i + 1..] + [c] + b;
  }

  lemma SplitAppendStep(a: string, c: char, b: string, i: nat)
    requires i < |a| && a[i] == c && c !in a[..i]
    requires Split(a[i + 1..] + [c] + b, c) == Split(a[i + 1..], c) + Split(b, c)
    ensures Split(a + [c] + b, c) == Split(a, c) + Split(b, c)
  {
    var h, l, r := a[..i], Split(a[i + 1..], c), Split(b, c);
    assert Split(a + [c] + b, c) == [h] + (l + r) by {
      SplitAppendB(a, c, b, i);
    }
    assert Split(a, c) == [h] + l by {
      SplitAtFirst(a, c, i);
    }
    Assoc([h], l, r);
  }

  lemma Assoc<T>(x: seq<T>, y: seq<T>, z: seq<T>)
    ensures x + (y + z) == (x + y) + z
  {
  }

  /** Splitting text with a separator in it splits each side. */
  lemma {:induction false} SplitAppend(a: string, c: char, b: string)
    ensures Split(a + [c] + b, c) == Split(a, c) + Split(b, c)
    decreases |a|
  {
    var ia := IndexOf(a, c);
    if ia.None? {
      SplitAppendA(a, c, b);
      SplitNone(a, c);
    } else {
      SplitAppend(a[ia.value + 1..], c, b);
      SplitAppendStep(a, c, b, ia.value);
    }
  }

  /** Each part preceded by the separator. */
  function Prefixed(parts: seq<string>, c: char): string {
    if parts == [] then [] else [c] + parts[0] + Prefixed(parts[1..], c)
  }

  /** Joining a head and more parts: the head, then each part after a separator. */
  lemma {:induction false} JoinHead(h: string, parts: seq<string>, c: char)
    ensures Join([h] + parts, c) == h + Prefixed(parts, c)
    decreases |parts|
  {
    if parts != [] {
      assert ([h] + parts)[1..] == parts;
      JoinHead(parts[0], parts[1..], c);
      assert parts == [parts[0]] + parts[1..];
    }
  }

  lemma {:induction false} PrefixedAppend(a: seq<string>, b: seq<string>, c: char)
    ensures Prefixed(a + b, c) == Prefixed(a, c) + Prefixed(b, c)
    decreases |a|
  {
    if a != [] {
      assert (a + b)[1..] == a[1..] + b;
      PrefixedAppend(a[1..], b, c);
    } else {
      assert a + b == b;
    }
  }

  /** The last `c` of `p + x`, where `p` ends with `c` and `x` has none, ends `p`. */
  lemma LastIndexOfAppend(p: string, x: string, c: char)
    requires p != [] && p[|p| - 1] == c && c !in x
    ensures LastIndexOf(p + x, c) == Some(|p| - 1)
  {
    var s := p + x;
    assert s[|p| - 1] == c;
    assert forall j :: |p| <= j < |s| ==> s[j] == x[j - |p|];
    var r := LastIndexOf(s, c).value;
    assert forall j :: r < j < |s| ==> s[j] == s[r + 1..][j - r - 1];
  }

  /** `strings.SplitN(s, string(c), 2)` when it yields two pieces: split at the first `c`. */
  function Cut(s: string, c: char): (r: Option<(string, string)>)
    ensures r.None? <==> c !in s
    ensures r.Some? ==> s == r.value.0 + [c] + r.value.1 && c !in r.value.0
  {
    match IndexOf(s, c)
    case None => None
    case Some(i) =>
      assert s == s[..i] + [c] + s[i + 1..];
      Some((s[..i], s[i + 1..]))
  }

  lemma CutAt(k: string, c: char, v: string)
    requires c !in k
    ensures Cut(k + [c] + v, c) == Some((k, v))
  {
    var s := k + [c] + v;
    assert s[..|k|] == k;
    IndexOfAt(s, c, |k|);
    assert s[|k| + 1..] == v;
  }

  /** `strings.ReplaceAll` with one-character old and new texts. */
  function ReplaceChar(s: string, from: char, to: char): (r: string)
    ensures |r| == |s|
    ensures forall i :: 0 <= i < |s| ==> r[i] == (if s[i] == from then to else s[i])
  {
    if s == [] then [] else [if s[0] == from then to else s[0]] + ReplaceChar(s[1..], from, to)
  }

  /** The maximal blank-free run at the front of `s`. */
  function Word(s: string): (r: string)
    ensures HasPrefix(s, r)
    ensures forall i :: 0 <= i < |r| ==> !IsSpace(r[i])
    ensures |r| == |s| || IsSpace(s[|r|])
  {
    if s == [] || IsSpace(s[0]) then [] else [s[0]] + Word(s[1..])
  }

  /** A non-empty run of non-blank characters. */
  predicate IsWord(w: string) {
    w != [] && forall i :: 0 <= i < |w| ==> !IsSpace(w[i])
  }

  /** `strings.Fields`: the maximal non-blank runs of `s`, in order. */
  function Fields(s: string): (r: seq<string>)
    ensures forall k :: 0 <= k < |r| ==> IsWord(r[k])
    decreases |s|
  {
    if s == [] then []
    else if IsSpace(s[0]) then Fields(s[1..])
    else
      var w := Word(s);
      assert w[0] == s[0];
      [w] + Fields(s[|w|..])
  }

  // Decimal and hexadecimal numerals.

  predicate IsDigit(c: char) { '0' <= c <= '9' }

  lemma DigitNotSpace(c: char)
    requires IsDigit(c)
    ensures !IsSpace(c)
  {
  }

  predicate AllDigits(s: string) {
    forall i :: 0 <= i < |s| ==> IsDigit(s[i])
  }

  function DigitChar(d: nat): char
    requires d < 10
  {
    (d + '0' as int) as char
  }

  /** `strconv.Itoa` on a natural number. */
  function NatToDec(n: nat): (r: string)
    ensures r != [] && AllDigits(r)
    ensures (r[0] == '0') <==> n == 0
    ensures n == 0 ==> r == "0"
    ensures n < 10 ==> |r| == 1
    ensures 10 <= n < 100 ==> |r| == 2
    ensures 100 <= n < 1000 ==> |r| == 3
  {
    if n < 10 then [DigitChar(n)] else NatToDec(n / 10) + [DigitChar(n % 10)]
  }

  /** The value of a string of decimal digits. */
  function DecValue(s: string): nat
    requires AllDigits(s)
  {
    if s == [] then 0 else 10 * DecValue(s[..|s| - 1]) + (s[|s| - 1] as int - '0' as int)
  }

  lemma {:induction false} DecValueOfNatToDec(n: nat)
    ensures DecValue(NatToDec(n)) == n
  {
    if n >= 10 {
      var s := NatToDec(n);
      assert s[..|s| - 1] == NatToDec(n / 10);
      DecValueOfNatToDec(n / 10);
    }
  }

  /** `strconv.Atoi`: an optional sign followed by at least one decimal digit, nothing else. */
  function Atoi(s: string): (r: Option<int>)
    ensures s != [] && AllDigits(s) ==> r == Some(DecValue(s) as int)
  {
    if s != [] && (s[0] == '+' || s[0] == '-') then
      var d := s[1..];
      var v: int := if d != [] && AllDigits(d) then DecValue(d) else 0;
      if d != [] && AllDigits(d) then Some(if s[0] == '-' then -v else v) else None
    else if s != [] && AllDigits(s) then Some(DecValue(s))
    else None
  }

  lemma AtoiOfNatToDec(n: nat)
    ensures Atoi(NatToDec(n)) == Some(n)
  {
    DecValueOfNatToDec(n);
  }

  function HexDigitLower(d: nat): char
    requires d < 16
  {
    if d < 10 then DigitChar(d) else (d - 10 + 'a' as int) as char
  }

  predicate IsHexUpperDigit(c: char) { '0' <= c <= '9' || 'A' <= c <= 'F' }

  /** `strconv.FormatInt(n, 16)` on a natural number: lower-case hexadecimal, no leading zeros. */
  function FormatHex(n: nat): (r: string)
    ensures r != []
    ensures forall i :: 0 <= i < |r| ==> IsHexUpperDigit(UpperChar(r[i]))
  {
    if n < 16 then [HexDigitLower(n)] else FormatHex(n / 16) + [HexDigitLower(n % 16)]
  }

  /** The value of one hexadecimal digit of either case. */
  function HexDigitValue(c: char): Option<nat>
  {
    if '0' <= c <= '9' then Some(c as int - '0' as int)
    else if 'a' <= c <= 'f' then Some(c as int - 'a' as int + 10)
    else if 'A' <= c <= 'F' then Some(c as int - 'A' as int + 10)
    else None
  }
}
