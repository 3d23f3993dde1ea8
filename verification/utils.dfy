/**
 * The two helpers of `src/lib/utils.ts` that the form engine relies on: the
 * inclusive day range and the element-id generator. Days are integers (one
 * unit per calendar day); ids are decimal strings.
 */
module Utils {

  /** The inclusive range of days from `start` to `end`, as a closed form. */
  function DayRange(start: int, end: int): (r: seq<int>)
    ensures |r| == if start <= end then end - start + 1 else 0
    ensures forall i :: 0 <= i < |r| ==> r[i] == start + i
    decreases end - start
  {
    if start > end then [] else [start] + DayRange(start + 1, end)
  }

  /**
   * Walks a cursor from `start`, pushing each day while it is not past `end`
   * and then advancing it by one day.
   */
  method GetDates(start: int, end: int) returns (dates: seq<int>)
    ensures start > end ==> dates == []
    ensures start <= end ==> |dates| > 0 && dates[0] == start
    ensures forall i :: 0 <= i < |dates| ==> dates[i] == start + i
    ensures forall i :: 0 <= i < |dates| ==> dates[i] <= end
    ensures |dates| > 0 ==> dates[|dates| - 1] + 1 > end
    ensures |dates| == if start <= end then end - start + 1 else 0
    ensures dates == DayRange(start, end)
  {
    dates := [];
    var current := start;
    while current <= end
      invariant start <= end ==> current <= end + 1
      invariant start > end ==> current == start
      invariant |dates| == current - start
      invariant forall i :: 0 <= i < |dates| ==> dates[i] == start + i
      decreases end - current
    {
      dates := dates + [current];
      current := current + 1;
    }
  }

  /** The decimal digit character for `d`. */
  function DigitChar(d: nat): (c: char)
    requires d < 10
    ensures '0' <= c <= '9' && c as int - '0' as int == d
  {
    (d + '0' as int) as char
  }

  predicate IsDigit(c: char) {
    '0' <= c <= '9'
  }

  /** JavaScript's `Number.prototype.toString()` of a non-negative integer. */
  function NatToString(n: nat): (s: string)
    ensures 1 <= |s|
    ensures forall i :: 0 <= i < |s| ==> IsDigit(s[i])
    ensures |s| > 1 ==> s[0] != '0'
    decreases n
  {
    if n < 10 then [DigitChar(n)] else NatToString(n / 10) + [DigitChar(n % 10)]
  }

  /** The value of a string of decimal digits. */
  function ParseDecimal(s: string): nat
    requires forall i :: 0 <= i < |s| ==> IsDigit(s[i])
  {
    if s == [] then 0
    else
      assert IsDigit(s[|s| - 1]);
      ParseDecimal(s[..|s| - 1]) * 10 + (s[|s| - 1] as int - '0' as int)
  }

  /** Parsing undoes printing: every id is the decimal spelling of one number. */
  lemma {:induction false} ParseNatToString(n: nat)
    ensures ParseDecimal(NatToString(n)) == n
    decreases n
  {
    if n >= 10 {
      var s := NatToString(n);
      ParseNatToString(n / 10);
      assert s[..|s| - 1] == NatToString(n / 10);
    }
  }

  /** Numbers up to 1000 print with at most four digits. */
  lemma NatToStringUpTo1000(n: nat)
    requires n <= 1000
    ensures |NatToString(n)| <= 4
  {
    if n >= 10 {
      var m := n / 10;
      if m >= 10 {
        var q := m / 10;
        assert |NatToString(q)| == 1 || q >= 10;
      }
    }
  }

  /**
   * `Math.floor(Math.random() * 1001).toString()`: the random draw is the
   * parameter `random` in [0, 1). Ids are the decimal strings of 0..1000;
   * nothing keeps two draws apart.
   */
  function IdGenerator(random: real): (id: string)
    requires 0.0 <= random < 1.0
    ensures 1 <= |id| <= 4
    ensures forall i :: 0 <= i < |id| ==> IsDigit(id[i])
    ensures |id| > 1 ==> id[0] != '0'
    ensures ParseDecimal(id) == (random * 1001.0).Floor
    ensures 0 <= ParseDecimal(id) <= 1000
  {
    var n := (random * 1001.0).Floor;
    assert 0 <= n <= 1000;
    ParseNatToString(n);
    NatToStringUpTo1000(n);
    NatToString(n)
  }
}
