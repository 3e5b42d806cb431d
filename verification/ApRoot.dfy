/**
 The normalisers of the two AP-root migrations: `_ap_root_new` and `_strip`
 (backend/alembic/versions/v2l9g14n5oj3_ap_root_drop_channel.py), `_ap_root_masked` and
 `_mask_existing` (backend/alembic/versions/w3m0h25o6pk4_ap_root_la_mask.py), down to Python's
 `int(s, 16)`, `& 0xF1` and `:02x`.
 */
module ApRoot {
  import opened Common

  // ---------------------------- strings ---------------------------- //

  /** `str.lower()` and `str.strip()` for ASCII text. */
  function LowerChar(c: char): char {
    if 'A' <= c <= 'Z' then (c as int + 32) as char else c
  }

  function Lower(s: string): string { seq(|s|, i requires 0 <= i < |s| => LowerChar(s[i])) }

  predicate IsSpace(c: char) { c == ' ' || '\t' <= c <= '\r' || 28 <= c as int <= 31 }

  function Strip(s: string): string {
    if s == [] then s
    else if IsSpace(s[0]) then Strip(s[1..])
    else if IsSpace(s[|s| - 1]) then Strip(s[..|s| - 1])
    else s
  }

  /** `s.split(sep)` and `sep.join(parts)` for a one-character separator. */
  function Split(s: string, sep: char): (parts: seq<string>)
    ensures parts != []
  {
    if s == [] then [""]
    else
      var rest := Split(s[1..], sep);
      if s[0] == sep then [""] + rest else [[s[0]] + rest[0]] + rest[1..]
  }

  function Join(parts: seq<string>, sep: char): string {
    if parts == [] then ""
    else if |parts| == 1 then parts[0]
    else parts[0] + [sep] + Join(parts[1..], sep)
  }

  lemma {:induction false} SplitHasNoSep(s: string, sep: char)
    ensures forall p | p in Split(s, sep) :: sep !in p
  {
    if s != [] {
      SplitHasNoSep(s[1..], sep);
    }
  }

  lemma {:induction false} SplitHead(head: string, rest: string, sep: char)
    requires sep !in head
    ensures Split(head + [sep] + rest, sep) == [head] + Split(rest, sep)
  {
    var s := head + [sep] + rest;
    if head == [] {
      assert s[1..] == rest;
    } else {
      assert s[1..] == head[1..] + [sep] + rest;
      SplitHead(head[1..], rest, sep);
      assert [head[0]] + head[1..] == head;
    }
  }

  lemma {:induction false} SplitAlone(s: string, sep: char)
    requires sep !in s
    ensures Split(s, sep) == [s]
  {
    if s != [] {
      SplitAlone(s[1..], sep);
      assert [s[0]] + s[1..] == s;
    }
  }

  lemma {:induction false} SplitJoin(parts: seq<string>, sep: char)
    requires parts != [] && forall p | p in parts :: sep !in p
    ensures Split(Join(parts, sep), sep) == parts
  {
    if |parts| == 1 {
      SplitAlone(parts[0], sep);
    } else {
      SplitJoin(parts[1..], sep);
      SplitHead(parts[0], Join(parts[1..], sep), sep);
    }
  }

  // ---------------------------- int(s, 16), & 0xF1, :02x ---------------------------- //

  function HexDigit(c: char): Option<nat> {
    if '0' <= c <= '9' then Some(c as nat - '0' as nat)
    else if 'a' <= c <= 'f' then Some(c as nat - 'a' as nat + 10)
    else if 'A' <= c <= 'F' then Some(c as nat - 'A' as nat + 10)
    else None
  }

  /** Digits with single underscores between them, the last character a digit. */
  function HexDigits(s: string): Option<nat> {
    if s == [] then None
    else match HexDigit(s[|s| - 1])
      case None => None
      case Some(d) =>
        if |s| == 1 then Some(d) else
          var before := s[..|s| - 1];
          var front := if before[|before| - 1] == '_' then before[..|before| - 1] else before;
          match HexDigits(front)
          case None => None
          case Some(v) => Some(v * 16 + d)
  }

  function ParseHex(s: string): Option<int> {
    var t := Strip(s);
    var negative := t != [] && t[0] == '-';
    var u := if t != [] && (t[0] == '-' || t[0] == '+') then t[1..] else t;
    var prefixed := |u| >= 2 && u[0] == '0' && (u[1] == 'x' || u[1] == 'X');
    var digits := if !prefixed then u else if |u| >= 3 && u[2] == '_' then u[3..] else u[2..];
    match HexDigits(digits)
    case None => None
    case Some(v) => var n: int := v; Some(if negative then -n else n)
  }

  /** `v & 0xF1`: the high nibble and the lowest bit of the low byte, in two's complement. */
  function MaskLa(v: int): nat {
    var byte := v % 256;
    byte / 16 * 16 + byte % 2
  }

  function HexChar(d: nat): char
    requires d < 16
  {
    if d < 10 then ('0' as int + d) as char else ('a' as int + d - 10) as char
  }

  function PrintByte(v: nat): string
    requires v < 256
  {
    [HexChar(v / 16), HexChar(v % 16)]
  }

  lemma MaskIsByte(v: int)
    ensures MaskLa(v) < 256 && MaskLa(MaskLa(v)) == MaskLa(v)
  {
  }

  /** What `:02x` prints, `int(…, 16)` reads back. */
  lemma ParsePrint(v: nat)
    requires v < 256
    ensures ParseHex(PrintByte(v)) == Some(v) && ':' !in PrintByte(v)
  {
    var s := PrintByte(v);
    assert Strip(s) == s;
    assert HexDigits(s[..1]) == Some(v / 16);
    assert HexDigits(s) == Some(v / 16 * 16 + v % 16);
  }

  // ---------------------------- the normalisers ---------------------------- //

  function Norm(bssid: string): string { Strip(Lower(bssid)) }

  /** `_ap_root_new`: the upper five bytes. */
  function UpperFive(bssid: string): string {
    var parts := Split(Norm(bssid), ':');
    if |parts| != 6 then Norm(bssid) else Join(parts[..5], ':')
  }

  /** Five parts with the LA family bits of the first one masked, if it is a number. */
  function MaskParts(parts: seq<string>): string
    requires |parts| == 5
  {
    match ParseHex(parts[0])
    case None => Join(parts, ':')
    case Some(v) => MaskIsByte(v); Join([PrintByte(MaskLa(v))] + parts[1..], ':')
  }

  /** `_ap_root_masked`. */
  function Masked(bssid: string): string {
    var parts := Split(Norm(bssid), ':');
    if |parts| != 6 then Norm(bssid) else MaskParts(parts[..5])
  }

  /** `_mask_existing`. */
  function MaskExisting(root: string): string {
    var parts := Split(root, ':');
    if |parts| != 5 || ParseHex(parts[0]) == None then root else MaskParts(parts)
  }

  /** `_strip`. */
  function StripChannel(root: string): string { Split(root, '@')[0] }

  lemma MaskPartsFixed(parts: seq<string>)
    requires |parts| == 5 && forall p | p in parts :: ':' !in p
    ensures MaskExisting(MaskParts(parts)) == MaskParts(parts)
  {
    match ParseHex(parts[0]) {
      case None =>
        SplitJoin(parts, ':');
      case Some(v) =>
        MaskIsByte(v);
        ParsePrint(MaskLa(v));
        var masked := [PrintByte(MaskLa(v))] + parts[1..];
        SplitJoin(masked, ':');
        assert [PrintByte(MaskLa(v))] + masked[1..] == masked;
    }
  }

  /** Masking an existing root twice is masking it once. */
  lemma MaskExistingIdempotent(root: string)
    ensures MaskExisting(MaskExisting(root)) == MaskExisting(root)
  {
    var parts := Split(root, ':');
    if |parts| == 5 {
      SplitHasNoSep(root, ':');
      MaskPartsFixed(parts);
    }
  }

  lemma StripChannelIdempotent(root: string)
    ensures StripChannel(StripChannel(root)) == StripChannel(root) && '@' !in StripChannel(root)
  {
    SplitHasNoSep(root, '@');
    assert Split(root, '@')[0] in Split(root, '@');
    SplitAlone(StripChannel(root), '@');
  }

  lemma {:induction false} JoinSplit(s: string, sep: char)
    ensures Join(Split(s, sep), sep) == s
  {
    if s != [] {
      JoinSplit(s[1..], sep);
      var rest := Split(s[1..], sep);
      if s[0] == sep {
        JoinBlank(rest, sep);
      } else {
        JoinHead(rest, s[0], sep);
      }
      assert [s[0]] + s[1..] == s;
    }
  }

  lemma JoinBlank(parts: seq<string>, sep: char)
    requires parts != []
    ensures Join([""] + parts, sep) == [sep] + Join(parts, sep)
  {
    assert ([""] + parts)[1..] == parts;
  }

  lemma JoinHead(parts: seq<string>, c: char, sep: char)
    requires parts != []
    ensures Join([[c] + parts[0]] + parts[1..], sep) == [c] + Join(parts, sep)
  {
    var longer := [[c] + parts[0]] + parts[1..];
    assert longer[1..] == parts[1..];
    if |parts| > 1 {
      assert Join(longer, sep) == [c] + parts[0] + [sep] + Join(parts[1..], sep);
    }
  }

  /** A sample of exactly five parts headed by a number that the mask would change. */
  predicate FivePartSample(bssid: string) {
    var parts := Split(Norm(bssid), ':');
    && |parts| == 5 && ParseHex(parts[0]).Some?
    && (MaskIsByte(ParseHex(parts[0]).value); PrintByte(MaskLa(ParseHex(parts[0]).value)) != parts[0])
  }

  /** Masking what the earlier migration made of a sample is masking the sample, exactly for the
      samples that are not of that shape. */
  lemma MaskAfterUpperFive(bssid: string)
    ensures MaskExisting(UpperFive(bssid)) == Masked(bssid) <==> !FivePartSample(bssid)
  {
    var parts := Split(Norm(bssid), ':');
    SplitHasNoSep(Norm(bssid), ':');
    JoinSplit(Norm(bssid), ':');
    if |parts| == 6 {
      SplitJoin(parts[..5], ':');
    } else if |parts| == 5 && ParseHex(parts[0]).Some? {
      var v := ParseHex(parts[0]).value;
      MaskIsByte(v);
      ParsePrint(MaskLa(v));
      var masked := [PrintByte(MaskLa(v))] + parts[1..];
      SplitJoin(masked, ':');
      assert masked == parts <==> masked[0] == parts[0];
    }
  }

  // ---------------------------- what the roots of a BSSID are ---------------------------- //

  /** White space among the ASCII characters, by code. */
  const ASCII_SPACES: set<int> := {9, 10, 11, 12, 13, 28, 29, 30, 31, 32}

  predicate AllSpaces(s: string) { forall i | 0 <= i < |s| :: s[i] as int in ASCII_SPACES }

  /** `before` and `after` are the white space around the stripped text. */
  predicate Trims(s: string, before: string, after: string) {
    s == before + Strip(s) + after && AllSpaces(before) && AllSpaces(after)
  }

  lemma SpacesAre(c: char)
    ensures IsSpace(c) <==> c as int in ASCII_SPACES
  {
  }

  /** Stripping removes white space at both ends ... */
  lemma {:induction false} StripTrims(s: string)
    ensures exists before, after :: Trims(s, before, after)
  {
    if s == [] || (!IsSpace(s[0]) && !IsSpace(s[|s| - 1])) {
      assert s == "" + Strip(s) + "";
      assert Trims(s, "", "");
    } else if IsSpace(s[0]) {
      StripTrims(s[1..]);
      var before, after :| Trims(s[1..], before, after);
      SpacesAre(s[0]);
      MoreSpace([s[0]], before);
      Regroup(s, [s[0]], before, Strip(s), after, []);
      assert Trims(s, [s[0]] + before, after + []);
    } else {
      var n := |s| - 1;
      StripTrims(s[..n]);
      var before, after :| Trims(s[..n], before, after);
      SpacesAre(s[n]);
      MoreSpace(after, [s[n]]);
      Regroup(s, [], before, Strip(s), after, [s[n]]);
      assert Trims(s, [] + before, after + [s[n]]);
    }
  }

  lemma Regroup(s: string, first: string, before: string, middle: string, after: string, last: string)
    requires s == first + (before + middle + after) + last
    ensures s == (first + before) + middle + (after + last)
  {
  }

  lemma MoreSpace(a: string, b: string)
    requires AllSpaces(a) && AllSpaces(b)
    ensures AllSpaces(a + b)
  {
  }

  /** ... and leaves none there. */
  lemma {:induction false} StripLeavesNone(s: string)
    ensures Strip(s) != "" ==>
              Strip(s)[0] as int !in ASCII_SPACES && Strip(s)[|Strip(s)| - 1] as int !in ASCII_SPACES
  {
    if s != [] {
      SpacesAre(s[0]);
      SpacesAre(s[|s| - 1]);
      if IsSpace(s[0]) {
        StripLeavesNone(s[1..]);
      } else if IsSpace(s[|s| - 1]) {
        StripLeavesNone(s[..|s| - 1]);
      }
    }
  }

  /** Lower-casing turns each capital into its own small letter and leaves the rest. */
  lemma LowerKeepsLetters(s: string)
    ensures |Lower(s)| == |s|
    ensures forall i | 0 <= i < |s| :: if 'A' <= s[i] <= 'Z' then Lower(s)[i] as int - 97 == s[i] as int - 65
                                       else Lower(s)[i] == s[i]
  {
  }

  /** The bit of a weight in a number in two's complement. */
  function Bit(v: int, weight: int): int
    requires weight > 0
  {
    v / weight % 2
  }

  /** The bits that the mask keeps are those of 0xF1 = 128 + 64 + 32 + 16 + 1. */
  predicate SameKeptBits(x: int, y: int) {
    && Bit(x, 1) == Bit(y, 1) && Bit(x, 16) == Bit(y, 16) && Bit(x, 32) == Bit(y, 32)
    && Bit(x, 64) == Bit(y, 64) && Bit(x, 128) == Bit(y, 128)
  }

  /** It keeps these ... */
  lemma MaskKeepsBits(v: int)
    ensures MaskLa(v) < 256 && SameKeptBits(MaskLa(v), v)
  {
    MaskParts16(v);
    MaskIsByte(v);
    SameHighSameBits(MaskLa(v), v % 256);
    LowBit(v, 1, 256);
    LowBit(v, 16, 16);
    LowBit(v, 32, 8);
    LowBit(v, 64, 4);
    LowBit(v, 128, 2);
  }

  lemma SameHighSameBits(x: int, y: int)
    requires 0 <= x < 256 && 0 <= y < 256 && x / 16 == y / 16 && x % 2 == y % 2
    ensures SameKeptBits(x, y)
  {
    HighBits(x);
    HighBits(y);
  }

  /** ... and clears the three others of the low byte. */
  lemma MaskClearsBits(v: int)
    ensures Bit(MaskLa(v), 2) == 0 && Bit(MaskLa(v), 4) == 0 && Bit(MaskLa(v), 8) == 0
  {
    var m := MaskLa(v);
    MaskParts16(v);
    DivisionIs(m, 2, 8 * (m / 16), m % 2);
    DivisionIs(m, 4, 4 * (m / 16), m % 2);
    DivisionIs(m, 8, 2 * (m / 16), m % 2);
  }

  lemma MaskParts16(v: int)
    ensures var byte := v % 256; MaskLa(v) == byte / 16 * 16 + byte % 2
    ensures MaskLa(v) / 16 == v % 256 / 16 && MaskLa(v) % 16 == v % 256 % 2 == MaskLa(v) % 2
  {
    var byte := v % 256;
    DivisionIs(MaskLa(v), 16, byte / 16, byte % 2);
    DivisionIs(MaskLa(v), 2, byte / 16 * 8, byte % 2);
  }

  lemma LowBit(v: int, weight: nat, k: nat)
    requires weight >= 1 && weight * k == 256 && k % 2 == 0
    ensures Bit(v, weight) == Bit(v % 256, weight)
  {
    var q, byte := v / 256, v % 256;
    var b, r := byte / weight, byte % weight;
    assert byte == b * weight + r && v == 256 * q + byte;
    assert (k * q + b) * weight == k * q * weight + b * weight;
    assert k * q * weight == weight * k * q == 256 * q;
    DivisionIs(v, weight, k * q + b, r);
    var half := k / 2;
    assert k * q == 2 * (half * q);
    DivisionIs(k * q + b, 2, half * q + b / 2, b % 2);
  }

  predicate SmallHex(c: char) { '0' <= c <= '9' || 'a' <= c <= 'f' }

  /** The six octets of a BSSID in small letters. */
  predicate IsBssid(p: seq<string>) {
    |p| == 6 && forall i | 0 <= i < 6 :: |p[i]| == 2 && SmallHex(p[i][0]) && SmallHex(p[i][1])
  }

  /** The value of a small hexadecimal digit, by its code, and of an octet. */
  function Digit(c: char): int
    requires SmallHex(c)
  {
    if c as int <= 57 then c as int - 48 else c as int - 87
  }

  function Octet(o: string): int
    requires |o| == 2 && SmallHex(o[0]) && SmallHex(o[1])
  {
    16 * Digit(o[0]) + Digit(o[1])
  }

  lemma OctetReads(o: string)
    requires |o| == 2 && SmallHex(o[0]) && SmallHex(o[1])
    ensures 0 <= Octet(o) < 256 && ParseHex(o) == Some(Octet(o)) && PrintByte(Octet(o)) == o && ':' !in o
  {
    var v := Octet(o);
    DivisionIs(v, 16, Digit(o[0]), Digit(o[1]));
    assert PrintByte(v) == o;
    ParsePrint(v);
  }

  lemma {:induction false} JoinedChars(p: seq<string>)
    requires forall x | x in p :: forall i | 0 <= i < |x| :: SmallHex(x[i])
    ensures forall i | 0 <= i < |Join(p, ':')| :: SmallHex(Join(p, ':')[i]) || Join(p, ':')[i] == ':'
  {
    if |p| > 1 {
      JoinedChars(p[1..]);
    } else if |p| == 1 {
      assert p[0] in p;
    }
  }

  /** The text of a BSSID is its own normal form, and splits into its octets. */
  lemma BssidIsNormal(p: seq<string>)
    requires IsBssid(p)
    ensures Norm(Join(p, ':')) == Join(p, ':') && Split(Join(p, ':'), ':') == p
  {
    var s := Join(p, ':');
    forall x | x in p ensures ':' !in x && forall i | 0 <= i < |x| :: SmallHex(x[i]) {
      var k :| 0 <= k < 6 && p[k] == x;
      assert |x| == 2 && SmallHex(x[0]) && SmallHex(x[1]);
    }
    JoinedChars(p);
    SplitJoin(p, ':');
    assert |Split(s, ':')| == 6 && |Split("", ':')| == 1;
    assert Lower(s) == s;
    assert !IsSpace(s[0]) && !IsSpace(s[|s| - 1]);
  }

  /** The two new roots of a BSSID, octet by octet: the first five, and the first five with only the bits
      0 and 4 to 7 of the first. */
  lemma RootsOfBssid(p: seq<string>)
    requires IsBssid(p)
    ensures UpperFive(Join(p, ':')) == Join([p[0], p[1], p[2], p[3], p[4]], ':')
    ensures 0 <= MaskLa(Octet(p[0])) < 256
    ensures Masked(Join(p, ':')) == Join([PrintByte(MaskLa(Octet(p[0]))), p[1], p[2], p[3], p[4]], ':')
  {
    BssidIsNormal(p);
    OctetReads(p[0]);
    RootsOfParts(Join(p, ':'), p, Octet(p[0]));
  }

  lemma RootsOfParts(bssid: string, p: seq<string>, v: int)
    requires Norm(bssid) == bssid && Split(bssid, ':') == p && |p| == 6 && ParseHex(p[0]) == Some(v)
    ensures 0 <= MaskLa(v) < 256
    ensures UpperFive(bssid) == Join([p[0], p[1], p[2], p[3], p[4]], ':')
    ensures Masked(bssid) == Join([PrintByte(MaskLa(v)), p[1], p[2], p[3], p[4]], ':')
  {
    FirstFive(p);
    RootsOfFive(bssid, p[..5]);
    MaskedParts(p[..5], v);
  }

  lemma FirstFive(p: seq<string>)
    requires |p| == 6
    ensures p[..5] == [p[0], p[1], p[2], p[3], p[4]]
  {
  }

  lemma RootsOfFive(bssid: string, five: seq<string>)
    requires Norm(bssid) == bssid && |Split(bssid, ':')| == 6 && Split(bssid, ':')[..5] == five
    ensures |five| == 5 && UpperFive(bssid) == Join(five, ':') && Masked(bssid) == MaskParts(five)
  {
  }

  lemma MaskedParts(five: seq<string>, v: int)
    requires |five| == 5 && ParseHex(five[0]) == Some(v)
    ensures 0 <= MaskLa(v) < 256
    ensures MaskParts(five) == Join([PrintByte(MaskLa(v)), five[1], five[2], five[3], five[4]], ':')
  {
    MaskIsByte(v);
    assert [PrintByte(MaskLa(v))] + five[1..] == [PrintByte(MaskLa(v)), five[1], five[2], five[3], five[4]];
  }

  /** Two BSSIDs get one masked root exactly when their octets two to five are the same and their first
      octets differ at most in the bits that the mask clears; the last octet does not matter. */
  lemma SameMaskedRootIff(p: seq<string>, q: seq<string>)
    requires IsBssid(p) && IsBssid(q)
    ensures Masked(Join(p, ':')) == Masked(Join(q, ':')) <==>
            p[1] == q[1] && p[2] == q[2] && p[3] == q[3] && p[4] == q[4] && SameKeptBits(Octet(p[0]), Octet(q[0]))
  {
    RootsOfBssid(p);
    RootsOfBssid(q);
    OctetReads(p[0]);
    OctetReads(q[0]);
    var v, u := MaskLa(Octet(p[0])), MaskLa(Octet(q[0]));
    ParsePrint(v);
    ParsePrint(u);
    RootParts(p, v);
    RootParts(q, u);
    assert PrintByte(v) == PrintByte(u) <==> v == u;
    SameMaskIff(Octet(p[0]), Octet(q[0]));
  }

  lemma RootParts(p: seq<string>, v: nat)
    requires IsBssid(p) && v < 256
    ensures Split(Join([PrintByte(v), p[1], p[2], p[3], p[4]], ':'), ':') == [PrintByte(v), p[1], p[2], p[3], p[4]]
  {
    ParsePrint(v);
    forall i | 1 <= i < 6 ensures ':' !in p[i] {
      OctetReads(p[i]);
    }
    SplitJoin([PrintByte(v), p[1], p[2], p[3], p[4]], ':');
  }

  lemma SameMaskIff(x: int, y: int)
    requires 0 <= x < 256 && 0 <= y < 256
    ensures MaskLa(x) == MaskLa(y) <==> SameKeptBits(x, y)
  {
    MasksEqualIff(x, y);
    if x / 16 == y / 16 && x % 2 == y % 2 { SameHighSameBits(x, y); }
    if SameKeptBits(x, y) { SameBitsSameHigh(x, y); }
  }

  lemma MasksEqualIff(x: int, y: int)
    requires 0 <= x < 256 && 0 <= y < 256
    ensures MaskLa(x) == MaskLa(y) <==> x / 16 == y / 16 && x % 2 == y % 2
  {
    MaskParts16(x);
    MaskParts16(y);
    NibblesTell(MaskLa(x), MaskLa(y), x / 16, y / 16, x % 2, y % 2);
  }

  lemma NibblesTell(a: int, b: int, high: int, high': int, low: int, low': int)
    requires a / 16 == high && b / 16 == high' && a % 16 == low && b % 16 == low'
    ensures a == b <==> high == high' && low == low'
  {
  }

  lemma SameBitsSameHigh(x: int, y: int)
    requires 0 <= x < 256 && 0 <= y < 256 && SameKeptBits(x, y)
    ensures x / 16 == y / 16 && x % 2 == y % 2
  {
    HighBits(x);
    HighBits(y);
  }

  lemma HighBits(x: int)
    requires 0 <= x < 256
    ensures x / 16 == Bit(x, 16) + 2 * Bit(x, 32) + 4 * Bit(x, 64) + 8 * Bit(x, 128) && Bit(x, 1) == x % 2
    ensures Bit(x, 32) == x / 16 / 2 % 2 && Bit(x, 64) == x / 16 / 4 % 2 && Bit(x, 128) == x / 16 / 8 % 2
  {
    var h := x / 16;
    assert x / 32 == h / 2 && x / 64 == h / 4 && x / 128 == h / 8;
  }

  /** Python's base-16 `int`: white space around, either case, signs and the prefix are read ... */
  lemma HexAsPythonReadsIt()
    ensures ParseHex(" 9e") == Some(158) && ParseHex("9E") == Some(158)
    ensures ParseHex("+a") == Some(10) && ParseHex("-a") == Some(-10) && ParseHex("0x1F") == Some(31)
  {
    assert " 9e"[1..] == "9e" && Strip(" 9e") == Strip("9e") == "9e";
    Hex2('9', 'e');
    Hex2('9', 'E');
    Hex2('1', 'F');
    assert "-a"[1..] == "a" == "+a"[1..] && "0x1F"[2..] == "1F";
  }

  /** ... so are single underscores between digits and after the prefix, and the rest is refused. */
  lemma HexAsPythonRefusesIt()
    ensures ParseHex("1_0") == Some(16) && ParseHex("0x_f") == Some(15)
    ensures ParseHex("") == None && ParseHex("g") == None && ParseHex("0x") == None
    ensures ParseHex("_1") == None && ParseHex("1_") == None
  {
    assert "1_0"[..2] == "1_" && "1_"[..1] == "1" && "_1"[..1] == "_" && "_"[..0] == "";
    assert "0x_f"[3..] == "f" && "0x"[2..] == "";
  }

  lemma Hex2(a: char, b: char)
    requires HexDigit(a).Some? && HexDigit(b).Some?
    ensures HexDigits([a, b]) == Some(16 * HexDigit(a).value + HexDigit(b).value)
  {
    assert [a, b][..1] == [a];
  }
}
