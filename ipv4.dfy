/**
 * Dotted-quad IPv4 text, the part of Go's `net.ParseIP`/`To4` and
 * `net.IP.String` that the protocol code uses: four decimal fields separated
 * by dots, each 0..255, written without leading zeros.
 */
module IPv4 {
  import opened Wrappers
  import opened Text

  /** One field of a dotted quad as `net.ParseIP` accepts it. */
  predicate ValidOctet(f: string) {
    f != [] && AllDigits(f) && (|f| > 1 ==> f[0] != '0') && DecValue(f) <= 255
  }

  /** Four byte values. */
  predicate IsQuad(o: seq<nat>) {
    |o| == 4 && forall k :: 0 <= k < 4 ==> o[k] < 256
  }

  /** The four bytes of a dotted quad, or None when `s` is not one. */
  function ParseIPv4(s: string): (r: Option<seq<nat>>)
    ensures r.Some? ==> IsQuad(r.value)
  {
    var f := Split(s, '.');
    if |f| == 4 && forall k :: 0 <= k < 4 ==> ValidOctet(f[k]) then
      Some([DecValue(f[0]), DecValue(f[1]), DecValue(f[2]), DecValue(f[3])])
    else None
  }

  /** `isIPv4` / `isValidIPv4`: the trimmed text parses as an IPv4 address. */
  predicate IsIPv4(s: string) {
    ParseIPv4(TrimSpace(s)).Some?
  }

  /** `net.IPv4(a, b, c, d).String()`. */
  function FormatIPv4(o: seq<nat>): (r: string)
    requires IsQuad(o)
  {
    Join([NatToDec(o[0]), NatToDec(o[1]), NatToDec(o[2]), NatToDec(o[3])], '.')
  }

  lemma NatToDecIsOctet(n: nat)
    requires n < 256
    ensures ValidOctet(NatToDec(n)) && DecValue(NatToDec(n)) == n
    ensures '.' !in NatToDec(n)
  {
    DecValueOfNatToDec(n);
  }

  lemma ParseJoin(a: string, b: string, c: string, d: string)
    requires ValidOctet(a) && ValidOctet(b) && ValidOctet(c) && ValidOctet(d)
    requires '.' !in a && '.' !in b && '.' !in c && '.' !in d
    ensures ParseIPv4(Join([a, b, c, d], '.')) == Some([DecValue(a), DecValue(b), DecValue(c), DecValue(d)])
  {
    SplitJoin([a, b, c, d], '.');
  }

  /** The printed form starts and ends with a digit. */
  lemma FormatEnds(o: seq<nat>)
    requires IsQuad(o)
    ensures IsDigit(FormatIPv4(o)[0]) && IsDigit(FormatIPv4(o)[|FormatIPv4(o)| - 1])
  {
    var a, b, c, d := NatToDec(o[0]), NatToDec(o[1]), NatToDec(o[2]), NatToDec(o[3]);
    Join4(a, b, c, d, '.');
  }

  /** Every byte quadruple prints as a dotted quad that parses back to it. */
  lemma ParseFormat(o: seq<nat>)
    requires IsQuad(o)
    ensures ParseIPv4(FormatIPv4(o)) == Some(o)
  {
    NatToDecIsOctet(o[0]);
    NatToDecIsOctet(o[1]);
    NatToDecIsOctet(o[2]);
    NatToDecIsOctet(o[3]);
    var a, b, c, d := NatToDec(o[0]), NatToDec(o[1]), NatToDec(o[2]), NatToDec(o[3]);
    ParseJoin(a, b, c, d);
    assert FormatIPv4(o) == Join([a, b, c, d], '.');
    assert [DecValue(a), DecValue(b), DecValue(c), DecValue(d)] == o;
  }

  lemma FormatTrimmed(o: seq<nat>)
    requires IsQuad(o)
    ensures Trimmed(FormatIPv4(o))
  {
    FormatEnds(o);
    var s := FormatIPv4(o);
    DigitNotSpace(s[0]);
    DigitNotSpace(s[|s| - 1]);
  }

  /** A dotted quad has no blank at either end, so the trim `isIPv4` applies changes nothing. */
  lemma FormatIsIPv4(o: seq<nat>)
    requires IsQuad(o)
    ensures IsIPv4(FormatIPv4(o))
  {
    ParseFormat(o);
    FormatTrimmed(o);
    TrimSpaceOfTrimmed(FormatIPv4(o));
  }

  /** A printed dotted quad is digits and dots only. */
  lemma FormatChars(o: seq<nat>)
    requires IsQuad(o)
    ensures forall i :: 0 <= i < |FormatIPv4(o)| ==> FormatIPv4(o)[i] == '.' || IsDigit(FormatIPv4(o)[i])
  {
    var a, b, c, d := NatToDec(o[0]), NatToDec(o[1]), NatToDec(o[2]), NatToDec(o[3]);
    Join4(a, b, c, d, '.');
    var s := FormatIPv4(o);
    assert s == a + ['.'] + b + ['.'] + c + ['.'] + d;
  }
}
