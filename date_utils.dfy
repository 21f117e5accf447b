/** Date-string conversion between the English form `DD-MMM-YYYY` shown in
    the interface and the ISO form `YYYY-MM-DD` stored in the database. */
module DateUtils {
  import opened Base

  const Months: seq<string> := ["Jan", "Feb", "Mar", "Apr", "May", "Jun", "Jul", "Aug", "Sep", "Oct", "Nov", "Dec"]

  /** `s.split('-')`: the pieces between hyphens, always at least one. */
  function Split(s: string): (parts: seq<string>)
    ensures |parts| >= 1
  {
    if s == [] then [""]
    else if s[0] == '-' then [""] + Split(s[1..])
    else
      var rest := Split(s[1..]);
      [[s[0]] + rest[0]] + rest[1..]
  }

  /** `parts.join('-')`. */
  function Join(parts: seq<string>): string
    requires |parts| >= 1
  {
    if |parts| == 1 then parts[0] else parts[0] + "-" + Join(parts[1..])
  }

  predicate NoHyphen(s: string) {
    forall k :: 0 <= k < |s| ==> s[k] != '-'
  }

  function Hyphens(s: string): nat {
    if s == [] then 0 else (if s[0] == '-' then 1 else 0) + Hyphens(s[1..])
  }

  /** Splitting yields hyphen-free pieces, one more than there are hyphens,
      and joining them back gives the input. */
  lemma {:induction false} SplitJoin(s: string)
    ensures Join(Split(s)) == s
    ensures |Split(s)| == Hyphens(s) + 1
    ensures forall k :: 0 <= k < |Split(s)| ==> NoHyphen(Split(s)[k])
  {
    if s != [] {
      SplitJoin(s[1..]);
      var rest := Split(s[1..]);
      if s[0] == '-' {
        assert Split(s)[1..] == rest;
        assert s == "-" + s[1..];
      } else {
        var parts := Split(s);
        assert parts[0] == [s[0]] + rest[0];
        if |rest| == 1 {
          assert s == [s[0]] + s[1..];
        } else {
          assert parts[1..] == rest[1..];
          assert Join(rest) == rest[0] + "-" + Join(rest[1..]);
          assert s == [s[0]] + s[1..];
        }
        forall k | 0 <= k < |parts| ensures NoHyphen(parts[k]) {
          if k > 0 {
            assert parts[k] == rest[k];
          }
        }
      }
    }
  }

  /** Joining hyphen-free pieces and splitting again gives the pieces back. */
  lemma {:induction false} JoinSplit(parts: seq<string>)
    requires |parts| >= 1
    requires forall k :: 0 <= k < |parts| ==> NoHyphen(parts[k])
    ensures Split(Join(parts)) == parts
    decreases |parts|, |parts[0]|
  {
    if |parts| == 1 {
      SplitHyphenFree(parts[0]);
    } else if parts[0] == [] {
      JoinSplit(parts[1..]);
      assert Join(parts) == "-" + Join(parts[1..]);
      assert Join(parts)[1..] == Join(parts[1..]);
    } else {
      var first := parts[0];
      var shorter := [first[1..]] + parts[1..];
      assert NoHyphen(first[1..]);
      assert forall k :: 1 <= k < |shorter| ==> shorter[k] == parts[k];
      JoinSplit(shorter);
      assert Join(parts) == [first[0]] + Join(shorter);
      assert Join(parts)[1..] == Join(shorter);
      assert [first[0]] + first[1..] == first;
      assert parts == [first] + shorter[1..];
    }
  }

  lemma {:induction false} SplitHyphenFree(s: string)
    requires NoHyphen(s)
    ensures Split(s) == [s]
  {
    if s != [] {
      SplitHyphenFree(s[1..]);
      assert [s[0]] + s[1..] == s;
    }
  }

  /** `MONTHS.indexOf(m)`: the position of `m` in the month table, or -1. */
  function MonthIndex(m: string): (k: int)
    ensures -1 <= k < 12
    ensures k == -1 <==> m !in Months
    ensures k >= 0 ==> Months[k] == m
  {
    MonthIndexFrom(m, 0)
  }

  function MonthIndexFrom(m: string, from: nat): (k: int)
    requires from <= 12
    ensures -1 <= k < 12
    ensures k == -1 <==> forall i :: from <= i < 12 ==> Months[i] != m
    ensures k >= 0 ==> from <= k && Months[k] == m
    decreases 12 - from
  {
    if from == 12 then -1 else if Months[from] == m then from else MonthIndexFrom(m, from + 1)
  }

  /** `s.padStart(2, '0')`. */
  function PadStart2(s: string): (r: string)
    ensures |s| >= 2 ==> r == s
    ensures |s| < 2 ==> |r| == 2 && r[2 - |s|..] == s && forall k :: 0 <= k < 2 - |s| ==> r[k] == '0'
  {
    if |s| >= 2 then s else seq(2 - |s|, _ => '0') + s
  }

  /** The two-digit month number: `(mIdx + 1).toString().padStart(2, '0')`. */
  function MonthNumber(k: nat): (r: string)
    requires k < 12
    ensures |r| == 2 && IsDigit(r[0]) && IsDigit(r[1])
    ensures r == [DigitChar((k + 1) / 10), DigitChar((k + 1) % 10)]
  {
    var s := NatToString(k + 1);
    assert k + 1 >= 10 ==> NatToString((k + 1) / 10) == [DigitChar(1)];
    PadStart2(s)
  }

  /** `parseFromEng`: `DD-MMM-YYYY` to `YYYY-MM-DD`; anything that is not
      three hyphen-separated parts around a known month comes back as is. */
  function ParseFromEng(s: string): string {
    if s == "" then ""
    else
      var parts := Split(s);
      if |parts| != 3 then s
      else
        var k := MonthIndex(parts[1]);
        if k == -1 then s
        else parts[2] + "-" + MonthNumber(k) + "-" + parts[0]
  }

  /** A string with other than exactly two hyphens is left unchanged. */
  lemma NotThreePartsUnchanged(s: string)
    requires Hyphens(s) != 2
    ensures ParseFromEng(s) == s
  {
    SplitJoin(s);
  }

  /** Three hyphen-free parts joined by hyphens split back into themselves. */
  lemma SplitThree(a: string, m: string, b: string)
    requires NoHyphen(a) && NoHyphen(m) && NoHyphen(b)
    ensures Split(a + "-" + m + "-" + b) == [a, m, b]
  {
    var parts := [a, m, b];
    assert Join(parts[2..]) == b;
    assert Join(parts) == a + "-" + m + "-" + b;
    JoinSplit(parts);
  }

  /** An English date is rearranged into ISO order with the month number. */
  lemma EngToIso(d: string, k: nat, y: string)
    requires k < 12 && NoHyphen(d) && NoHyphen(y)
    ensures ParseFromEng(d + "-" + Months[k] + "-" + y) == y + "-" + MonthNumber(k) + "-" + d
  {
    var m := Months[k];
    assert NoHyphen(m);
    SplitThree(d, m, y);
    assert MonthIndex(m) == k;
  }

  /** A middle part that is not a month name (an ISO date's two-digit month,
      say) leaves the input unchanged. */
  lemma UnknownMonthUnchanged(a: string, m: string, b: string)
    requires NoHyphen(a) && NoHyphen(m) && NoHyphen(b) && m !in Months
    ensures ParseFromEng(a + "-" + m + "-" + b) == a + "-" + m + "-" + b
  {
    SplitThree(a, m, b);
  }

  /** A month number is two digits, so it never reads as a month name. */
  lemma MonthNumberIsNoMonth(k: nat)
    requires k < 12
    ensures NoHyphen(MonthNumber(k)) && MonthNumber(k) !in Months
  {
    var mm := MonthNumber(k);
    forall i | 0 <= i < 12 ensures Months[i] != mm {
      assert !IsDigit(Months[i][0]);
    }
  }

  /** Converting twice is converting once: the ISO result has a numeric
      middle part, which no month name matches. */
  lemma ParseFromEngIdempotent(s: string)
    ensures ParseFromEng(ParseFromEng(s)) == ParseFromEng(s)
  {
    if s != "" {
      var parts := Split(s);
      if |parts| == 3 && MonthIndex(parts[1]) != -1 {
        SplitJoin(s);
        var k := MonthIndex(parts[1]);
        MonthNumberIsNoMonth(k);
        UnknownMonthUnchanged(parts[2], MonthNumber(k), parts[0]);
      }
    }
  }

  lemma ParseExample()
    ensures ParseFromEng("05-Mar-2024") == "2024-03-05"
  {
    assert NoHyphen("05") && NoHyphen("2024");
    EngToIso("05", 2, "2024");
    assert Months[2] == "Mar";
    assert "05" + "-" + "Mar" + "-" + "2024" == "05-Mar-2024";
    assert NatToString(3) == "3";
    assert MonthNumber(2) == "03";
    assert "2024" + "-" + "03" + "-" + "05" == "2024-03-05";
  }

  lemma IsoExample()
    ensures ParseFromEng("2024-03-05") == "2024-03-05"
  {
    MonthNumberIsNoMonth(2);
    assert NatToString(3) == "3";
    assert MonthNumber(2) == "03";
    UnknownMonthUnchanged("2024", "03", "05");
    assert "2024" + "-" + "03" + "-" + "05" == "2024-03-05";
  }

  /** What the interface shows for a date string: the string itself, or
      what `formatToEng` makes of it (which depends on `Date` parsing and
      the local time zone, and is not part of this model). */
  datatype Display = AsIs(text: string) | Reformatted(iso: string)

  /** `formatToEng`, as far as it does not depend on `Date`: empty in,
      empty out. */
  function FormatToEng(iso: string): (r: Display)
    ensures iso == "" <==> r == AsIs("")
  {
    if iso == "" then AsIs("") else Reformatted(iso)
  }

  predicate IsLetter(c: char) {
    'A' <= c <= 'Z' || 'a' <= c <= 'z'
  }

  /** `/^\d{2}-[A-Za-z]{3}-\d{4}$/`. */
  predicate LooksEnglish(s: string) {
    && |s| == 11
    && IsDigit(s[0]) && IsDigit(s[1]) && s[2] == '-'
    && IsLetter(s[3]) && IsLetter(s[4]) && IsLetter(s[5]) && s[6] == '-'
    && IsDigit(s[7]) && IsDigit(s[8]) && IsDigit(s[9]) && IsDigit(s[10])
  }

  /** `uiDate`: empty stays empty, an English date is kept, anything else
      goes through `formatToEng`. */
  function UiDate(s: string): (r: Display)
    ensures s == "" ==> r == AsIs("")
    ensures LooksEnglish(s) ==> r == AsIs(s)
    ensures s != "" && !LooksEnglish(s) ==> r == Reformatted(s)
  {
    if s == "" then AsIs("")
    else if LooksEnglish(s) then AsIs(s)
    else FormatToEng(s)
  }

  /** Every two-digit day, month name and four-digit year is shown as is. */
  lemma UiDateKeepsEnglish(d: string, k: nat, y: string)
    requires k < 12 && |d| == 2 && |y| == 4
    requires forall i :: 0 <= i < 2 ==> IsDigit(d[i])
    requires forall i :: 0 <= i < 4 ==> IsDigit(y[i])
    ensures UiDate(d + "-" + Months[k] + "-" + y) == AsIs(d + "-" + Months[k] + "-" + y)
  {
    var s := d + "-" + Months[k] + "-" + y;
    assert s[0] == d[0] && s[1] == d[1];
    assert s[3..6] == Months[k];
    assert s[7..] == y;
  }
}
