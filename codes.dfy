/**
 * The display code scheme of `generateTicket` (services/mockDb.ts:77-82): sector prefix, a `P`
 * marker for every preferential class, a dash, and the per-sector sequence number written in
 * decimal and left-padded with zeros to at least three digits (`String(n).padStart(3, '0')`).
 * ParseCode reads a code back, so that the scheme is stated as a round trip.
 */
module Codes {
  import opened Wrappers
  import opened Types
  import opened Lists

  /** The two configured sectors, services/mockDb.ts:4-7. */
  const Sectors: seq<Sector> := [
    Sector("1", "Matrícula", "M"),
    Sector("2", "Renovação de Matrícula", "R")
  ]

  /** The prefix of the sector with that id, or `X` for an unknown sector. */
  function PrefixFor(sectorId: string): (prefix: string)
    ensures sectorId == "1" ==> prefix == "M"
    ensures sectorId == "2" ==> prefix == "R"
    ensures sectorId != "1" && sectorId != "2" ==> prefix == "X"
  {
    match IndexOfId(Sectors, SectorId, sectorId)
    case Some(k) => Sectors[k].codePrefix
    case None => "X"
  }

  /** The priority marker: empty for NORMAL, `P` for every other class. */
  function Marker(priority: PriorityType): (m: string)
    ensures m == "P" <==> priority.IsPreferential()
    ensures m == "" <==> !priority.IsPreferential()
  {
    if priority == Normal then "" else "P"
  }

  predicate IsDigit(c: char) { '0' <= c <= '9' }

  predicate IsDigits(s: string) { forall i :: 0 <= i < |s| ==> IsDigit(s[i]) }

  /** The numeric value of a string of decimal digits, read from its last digit. */
  function DecimalValue(s: string): nat
    requires IsDigits(s)
  {
    if s == [] then 0 else DecimalValue(s[..|s| - 1]) * 10 + (s[|s| - 1] as int - '0' as int)
  }

  /** `String(n)` for a natural number: decimal digits, no leading zero. */
  function DecimalString(n: nat): (s: string)
    ensures s != [] && IsDigits(s)
    ensures DecimalValue(s) == n
    ensures n < 1000 ==> |s| <= 3
    ensures s[0] == '0' <==> n == 0
  {
    var d := [('0' as int + n % 10) as char];
    if n < 10 then
      d
    else
      var s := DecimalString(n / 10) + d;
      assert s[..|s| - 1] == DecimalString(n / 10);
      s
  }

  /** `n` copies of the character '0'. */
  function Zeros(n: nat): (z: string)
    ensures |z| == n && IsDigits(z)
    ensures DecimalValue(z) == 0
  {
    if n == 0 then [] else Zeros(n - 1) + ['0']
  }

  /** `s.padStart(width, '0')`: zeros in front of `s` until it is at least `width` long. */
  function PadStart(s: string, width: nat): (r: string)
    requires IsDigits(s)
    ensures IsDigits(r) && DecimalValue(r) == DecimalValue(s)
    ensures |r| == if |s| >= width then |s| else width
  {
    if |s| >= width then s
    else
      LeadingZerosAddNothing(width - |s|, s);
      Zeros(width - |s|) + s
  }

  /** Zeros in front of a decimal numeral leave its value unchanged. */
  lemma {:induction false} LeadingZerosAddNothing(n: nat, s: string)
    requires IsDigits(s)
    ensures IsDigits(Zeros(n) + s) && DecimalValue(Zeros(n) + s) == DecimalValue(s)
  {
    var z := Zeros(n) + s;
    if s == [] {
      assert z == Zeros(n);
    } else {
      var init := s[..|s| - 1];
      assert z[..|z| - 1] == Zeros(n) + init;
      assert z[|z| - 1] == s[|s| - 1];
      LeadingZerosAddNothing(n, init);
    }
  }

  /** The code of the ticket issued after `count` earlier tickets of the same sector. */
  function CodeFor(prefix: string, priority: PriorityType, count: nat): (code: string)
    ensures ParseCode(code) == Some((prefix + Marker(priority), count + 1))
    ensures count + 1 < 1000 ==> |code| == |prefix| + |Marker(priority)| + 4
  {
    var head := prefix + Marker(priority);
    var digits := PadStart(DecimalString(count + 1), 3);
    ParseJoined(head, digits);
    head + "-" + digits
  }

  /**
   * The layout of a code: the prefix and marker, a dash, and at least three digits, padded with
   * zeros only up to three; a longer number starts with a nonzero digit.
   */
  lemma CodeLayout(prefix: string, priority: PriorityType, count: nat)
    ensures var code := CodeFor(prefix, priority, count);
      var h := |prefix| + |Marker(priority)|;
      && |code| >= h + 4
      && code[..h] == prefix + Marker(priority)
      && code[h] == '-'
      && IsDigits(code[h + 1..])
      && (|code| > h + 4 ==> code[h + 1] != '0')
  {
    var head := prefix + Marker(priority);
    var digits := PadStart(DecimalString(count + 1), 3);
    assert CodeFor(prefix, priority, count) == head + "-" + digits;
    JoinedLayout(head, count + 1);
  }

  /** The layout of `head + "-"` followed by the numeral of `n` padded to three digits. */
  lemma JoinedLayout(head: string, n: nat)
    requires n > 0
    ensures var digits := PadStart(DecimalString(n), 3);
      var code := head + "-" + digits;
      && |code| >= |head| + 4
      && code[..|head|] == head
      && code[|head|] == '-'
      && IsDigits(code[|head| + 1..])
      && (|code| > |head| + 4 ==> code[|head| + 1] != '0')
  {
    var numeral := DecimalString(n);
    var digits := PadStart(numeral, 3);
    var code := head + "-" + digits;
    assert code[..|head|] == head;
    assert code[|head| + 1..] == digits;
    assert |digits| > 3 ==> digits == numeral;
  }

  /** A head, a dash and a nonempty run of digits parse back into the head and the digits' value. */
  lemma ParseJoined(head: string, digits: string)
    requires digits != [] && IsDigits(digits)
    ensures ParseCode(head + "-" + digits) == Some((head, DecimalValue(digits)))
  {
    var code := head + "-" + digits;
    assert code[..|head|] == head;
    assert code[|head| + 1..] == digits;
    NoDashAfter(head + "-", digits);
  }

  /** The position of the last dash in `s`, if there is one. */
  function LastDash(s: string): (r: Option<nat>)
    ensures r.Some? ==> r.value < |s| && s[r.value] == '-'
    ensures r.Some? ==> forall i :: r.value < i < |s| ==> s[i] != '-'
    ensures r.None? ==> forall i :: 0 <= i < |s| ==> s[i] != '-'
  {
    if s == [] then None
    else if s[|s| - 1] == '-' then Some(|s| - 1)
    else LastDash(s[..|s| - 1])
  }

  /** A dash followed by nothing but digits is the last dash. */
  lemma NoDashAfter(head: string, digits: string)
    requires head != [] && head[|head| - 1] == '-' && IsDigits(digits)
    ensures LastDash(head + digits) == Some(|head| - 1)
  {
    var s := head + digits;
    assert s[|head| - 1] == '-';
    assert forall i :: |head| <= i < |s| ==> IsDigit(s[i]);
  }

  /**
   * Splits a code at its last dash into the part in front (prefix and marker) and the number
   * written after it; None when the code has no dash or no digits after its last dash.
   */
  function ParseCode(code: string): Option<(string, nat)> {
    match LastDash(code)
    case None => None
    case Some(j) =>
      var digits := code[j + 1..];
      if digits != [] && IsDigits(digits) then Some((code[..j], DecimalValue(digits))) else None
  }

  /**
   * What ParseCode reads: a head, a dash and a nonempty run of digits make up the code, and the
   * number is the digits' value; it fails exactly when no dash is followed by nothing but digits.
   */
  lemma ParseCodeMeaning(code: string)
    ensures ParseCode(code).Some? ==>
      var h := ParseCode(code).value.0;
      && |h| < |code| - 1 && code[..|h|] == h && code[|h|] == '-'
      && IsDigits(code[|h| + 1..]) && ParseCode(code).value.1 == DecimalValue(code[|h| + 1..])
    ensures ParseCode(code).None? ==>
      forall k :: 0 < k < |code| && code[k - 1] == '-' ==> !IsDigits(code[k..])
  {
    match LastDash(code)
    case None =>
    case Some(j) =>
      if ParseCode(code).None? {
        DashBlocksDigits(code, j);
      }
  }

  /** No run of digits starting before a dash reaches past it. */
  lemma DashBlocksDigits(code: string, j: nat)
    requires j < |code| && code[j] == '-'
    ensures forall k :: 0 < k <= j ==> !IsDigits(code[k..])
  {
    forall k | 0 < k <= j ensures !IsDigits(code[k..]) {
      assert code[k..][j - k] == '-';
    }
  }

  /** The scenario of the first Normal ticket of the first sector. */
  lemma FirstCodeOfSector()
    ensures CodeFor(PrefixFor("1"), Normal, 0) == "M-001"
  {
    assert DecimalString(1) == "1";
    assert Zeros(2) == "00";
    assert PadStart("1", 3) == "001";
  }

  /** A preferential ticket of the second sector carries the marker. */
  lemma PreferentialCodeOfSector()
    ensures CodeFor(PrefixFor("2"), Elderly, 41) == "RP-042"
  {
    assert PrefixFor("2") == "R" && Marker(Elderly) == "P";
    var four := DecimalString(4);
    assert four == ['4'];
    var digits := DecimalString(42);
    assert digits == four + ['2'];
    assert PadStart(digits, 3) == ['0'] + digits;
  }
}
