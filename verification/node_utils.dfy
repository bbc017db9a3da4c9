/**
 * Formatting of mesh node ids: the `!<hex>` form shown to users and the
 * `#rrggbb` colour derived from the low 24 bits of the id.
 */
module NodeUtils {
  import opened Wrappers

  /** A node number; the mesh uses unsigned 32-bit values, but the formatting works on any integer. */
  type NodeId = nat

  /** 2^24: masking with 0x00FFFFFF keeps the remainder modulo this value. */
  const ColourRange: nat := 0x100_0000

  predicate IsHexDigit(c: char) {
    '0' <= c <= '9' || 'a' <= c <= 'f'
  }

  predicate AllHexDigits(s: string) {
    forall i :: 0 <= i < |s| ==> IsHexDigit(s[i])
  }

  /** Value of one lower-case hexadecimal digit. */
  function DigitValue(c: char): (d: nat)
    requires IsHexDigit(c)
    ensures d < 16
  {
    if c <= '9' then c as int - '0' as int else c as int - 'a' as int + 10
  }

  /** The lower-case digit `Number.prototype.toString(16)` writes for d. */
  function HexDigit(d: nat): (c: char)
    requires d < 16
    ensures IsHexDigit(c) && DigitValue(c) == d
    ensures c == '0' <==> d == 0
  {
    if d < 10 then ('0' as int + d) as char else ('a' as int + d - 10) as char
  }

  /** `n.toString(16)`: lower-case digits, most significant first, no leading zero. */
  function HexDigits(n: nat): (s: string)
    ensures 1 <= |s|
    ensures AllHexDigits(s)
    ensures s[0] == '0' <==> n == 0
    decreases n
  {
    if n < 16 then [HexDigit(n)] else HexDigits(n / 16) + [HexDigit(n % 16)]
  }

  /** Reads a string of hexadecimal digits back as a number (the inverse of HexDigits). */
  function ParseHex(s: string): nat
    requires AllHexDigits(s)
  {
    if s == [] then 0 else ParseHex(s[..|s| - 1]) * 16 + DigitValue(s[|s| - 1])
  }

  function Pow16(k: nat): nat {
    if k == 0 then 1 else 16 * Pow16(k - 1)
  }

  /** `s.padStart(width, fill)` for a one-character fill. */
  function PadStart(s: string, width: nat, fill: char): (r: string)
    ensures |r| == if |s| < width then width else |s|
    ensures r[|r| - |s|..] == s
    ensures forall i :: 0 <= i < |r| - |s| ==> r[i] == fill
  {
    if |s| >= width then s else seq(width - |s|, _ => fill) + s
  }

  /** getNodeHexId: "!" followed by the id in hexadecimal (a minus sign for a negative id). */
  function NodeHexId(nodeId: int): (r: string)
    ensures |r| >= 2 && r[0] == '!'
    ensures nodeId >= 0 ==> AllHexDigits(r[1..]) && (r[1] == '0' <==> nodeId == 0)
    ensures nodeId == 0 ==> r == "!0"
    ensures nodeId < 0 ==> |r| >= 3 && r[1] == '-' && AllHexDigits(r[2..]) && r[2] != '0'
  {
    "!" + if nodeId < 0 then "-" + HexDigits(-nodeId) else HexDigits(nodeId)
  }

  /** Reads an id written by NodeHexId back; None for anything NodeHexId cannot produce. */
  function ParseNodeHexId(s: string): (r: Option<int>)
    ensures r.Some? ==> |s| >= 2 && s[0] == '!'
  {
    if |s| < 2 || s[0] != '!' then None
    else if s[1] == '-' then
      if |s| >= 3 && AllHexDigits(s[2..]) then Some(0 - ParseHex(s[2..]) as int) else None
    else if AllHexDigits(s[1..]) then Some(ParseHex(s[1..]))
    else None
  }

  /** getNodeColour: "#" and the low 24 bits of the id as six hex digits, zero-padded. */
  function NodeColour(nodeId: int): (r: string)
    ensures |r| == 7 && r[0] == '#'
    ensures AllHexDigits(r[1..])
  {
    var digits := HexDigits(nodeId % ColourRange);
    HexDigitsLength(nodeId % ColourRange, 6);
    "#" + PadStart(digits, 6, '0')
  }

  lemma {:induction false} HexDigitsLength(n: nat, k: nat)
    requires 1 <= k && n < Pow16(k)
    ensures |HexDigits(n)| <= k
    decreases k
  {
    if n >= 16 {
      assert k >= 2;
      assert n / 16 < Pow16(k - 1);
      HexDigitsLength(n / 16, k - 1);
    }
  }

  /** Round trip: the digits HexDigits writes parse back to the number. */
  lemma {:induction false} ParseHexDigits(n: nat)
    ensures ParseHex(HexDigits(n)) == n
    decreases n
  {
    var s := HexDigits(n);
    if n < 16 {
      assert s[..0] == [];
    } else {
      assert s[..|s| - 1] == HexDigits(n / 16);
      ParseHexDigits(n / 16);
    }
  }

  lemma {:induction false} ParseHexZeros(z: string)
    requires forall i :: 0 <= i < |z| ==> z[i] == '0'
    ensures AllHexDigits(z) && ParseHex(z) == 0
    decreases |z|
  {
    if z != [] {
      ParseHexZeros(z[..|z| - 1]);
    }
  }

  /** Leading zeros do not change the value a digit string denotes. */
  lemma {:induction false} ParseHexLeadingZeros(z: string, s: string)
    requires forall i :: 0 <= i < |z| ==> z[i] == '0'
    requires AllHexDigits(s)
    ensures AllHexDigits(z + s) && ParseHex(z + s) == ParseHex(s)
    decreases |s|
  {
    if s == [] {
      assert z + s == z;
      ParseHexZeros(z);
    } else {
      var t := z + s;
      assert t[..|t| - 1] == z + s[..|s| - 1];
      ParseHexLeadingZeros(z, s[..|s| - 1]);
    }
  }

  /** The six colour digits parse back to `id & 0xFFFFFF`. */
  lemma NodeColourLowBits(nodeId: int)
    ensures ParseHex(NodeColour(nodeId)[1..]) == nodeId % ColourRange
  {
    var n := nodeId % ColourRange;
    var digits := HexDigits(n);
    HexDigitsLength(n, 6);
    var padded := PadStart(digits, 6, '0');
    assert NodeColour(nodeId)[1..] == padded;
    var z := padded[..|padded| - |digits|];
    assert padded == z + digits;
    ParseHexLeadingZeros(z, digits);
    ParseHexDigits(n);
  }

  /** Ids that agree in their low 24 bits share a colour. */
  lemma NodeColourCongruent(a: int, b: int)
    requires a % ColourRange == b % ColourRange
    ensures NodeColour(a) == NodeColour(b)
  {
  }

  /** Different ids below 2^24 get different colours. */
  lemma NodeColourInjective(a: int, b: int)
    requires 0 <= a < ColourRange && 0 <= b < ColourRange
    requires NodeColour(a) == NodeColour(b)
    ensures a == b
  {
    NodeColourLowBits(a);
    NodeColourLowBits(b);
  }

  /** `!` followed by hex digits parses to their value. */
  lemma ParseNonNegative(digits: string)
    requires |digits| >= 1 && AllHexDigits(digits)
    ensures ParseNodeHexId("!" + digits) == Some(ParseHex(digits) as int)
  {
    var s := "!" + digits;
    assert s[1] == digits[0] && s[1..] == digits;
  }

  /** `!-` followed by hex digits parses to their value, negated. */
  lemma ParseNegative(digits: string)
    requires |digits| >= 1 && AllHexDigits(digits)
    ensures ParseNodeHexId("!-" + digits) == Some(0 - ParseHex(digits) as int)
  {
    var s := "!-" + digits;
    assert s[1] == '-' && s[2..] == digits;
  }

  /** Round trip: the id written by getNodeHexId reads back as the same id. */
  lemma NodeHexIdRoundTrip(nodeId: int)
    ensures ParseNodeHexId(NodeHexId(nodeId)) == Some(nodeId)
  {
    if nodeId < 0 {
      var magnitude: nat := -nodeId;
      var digits := HexDigits(magnitude);
      assert NodeHexId(nodeId) == "!-" + digits;
      ParseHexDigits(magnitude);
      ParseNegative(digits);
    } else {
      var digits := HexDigits(nodeId);
      assert NodeHexId(nodeId) == "!" + digits;
      ParseNonNegative(digits);
      ParseHexDigits(nodeId);
    }
  }

  /** Different ids give different `!<hex>` strings. */
  lemma NodeHexIdInjective(a: int, b: int)
    requires NodeHexId(a) == NodeHexId(b)
    ensures a == b
  {
    NodeHexIdRoundTrip(a);
    NodeHexIdRoundTrip(b);
  }
}
