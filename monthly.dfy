/** The twelve-month window of the extended statistics endpoint
    (`monthlyEvolution` in server/index.js): one entry per calendar month,
    oldest first, ending with the current month, with the per-month count the
    SQL query returned or 0. */
module Monthly {
  import opened Text
  import opened Values

  /** A calendar month; `month` runs from 1 to 12. */
  datatype YearMonth = YearMonth(year: int, month: int)

  /** JavaScript's Date constructor reads a year argument from 0 to 99 as 1900 to 1999. */
  function DateYear(y: int): int {
    if 0 <= y <= 99 then 1900 + y else y
  }

  /** The calendar month of `new Date(year, monthIndex - i, 1)`: the Date
      constructor carries month indexes outside 0..11 into the year, which is
      Euclidean division by 12. */
  function MonthsBefore(year: int, monthIndex: int, i: int): (ym: YearMonth)
    ensures 1 <= ym.month <= 12
  {
    var t := DateYear(year) * 12 + monthIndex - i;
    YearMonth(t / 12, t % 12 + 1)
  }

  function NextMonth(ym: YearMonth): YearMonth {
    if ym.month >= 12 then YearMonth(ym.year + 1, 1) else YearMonth(ym.year, ym.month + 1)
  }

  /** Going back i + 1 months and then forward one month is going back i months. */
  lemma MonthsBeforeConsecutive(year: int, monthIndex: int, i: int)
    ensures NextMonth(MonthsBefore(year, monthIndex, i + 1)) == MonthsBefore(year, monthIndex, i)
  {
    var t := DateYear(year) * 12 + monthIndex - i;
    var u := t - 1;
    assert u == (u / 12) * 12 + u % 12;
    assert t == (t / 12) * 12 + t % 12;
    if u % 12 == 11 {
      assert t / 12 == u / 12 + 1 && t % 12 == 0;
    } else {
      assert t / 12 == u / 12 && t % 12 == u % 12 + 1;
    }
  }

  /** For a year the Date constructor takes literally, going back 0 months from
      `now.getMonth()` is the current calendar month. */
  lemma MonthsBeforeNow(year: int, monthIndex: int)
    requires 0 <= monthIndex <= 11
    requires !(0 <= year <= 99)
    ensures MonthsBefore(year, monthIndex, 0) == YearMonth(year, monthIndex + 1)
  {
    var t := year * 12 + monthIndex;
    assert t / 12 == year && t % 12 == monthIndex;
  }

  /** `${d.getFullYear()}-${String(d.getMonth() + 1).padStart(2, '0')}` */
  function Label(ym: YearMonth): string {
    IntToDecimal(ym.year) + "-" + PadStart(NatToDecimal(if ym.month < 0 then 0 else ym.month), 2, '0')
  }

  /** Different calendar months get different labels, so each entry of the
      window picks up the count of its own month only. */
  lemma LabelInjective(a: YearMonth, b: YearMonth)
    requires 1 <= a.month <= 12 && 1 <= b.month <= 12
    ensures Label(a) == Label(b) <==> a == b
  {
    if Label(a) == Label(b) {
      LabelParts(a);
      LabelParts(b);
      PaddedValue(a.month);
      PaddedValue(b.month);
      IntToDecimalInjective(a.year, b.year);
    }
  }

  /** A label is the year's numeral, a dash and exactly two month digits. */
  lemma LabelParts(ym: YearMonth)
    requires 1 <= ym.month <= 12
    ensures var l, p := Label(ym), PadStart(NatToDecimal(ym.month), 2, '0');
            |p| == 2 && |l| >= 3 && l[|l| - 2..] == p && l[..|l| - 3] == IntToDecimal(ym.year)
  {
    var y, p := IntToDecimal(ym.year), PadStart(NatToDecimal(ym.month), 2, '0');
    PaddedWidth(ym.month);
    var l := y + "-" + p;
    assert l == Label(ym);
    ConcatParts(y, "-", p);
  }

  /** A month numeral padded to two digits has exactly two characters. */
  lemma PaddedWidth(m: int)
    requires 1 <= m <= 12
    ensures |PadStart(NatToDecimal(m), 2, '0')| == 2
  {
    if m < 10 {
      assert NatToDecimal(m) == [Digit(m)];
    } else {
      assert NatToDecimal(m) == NatToDecimal(m / 10) + [Digit(m % 10)];
    }
  }

  lemma ConcatParts(y: string, dash: string, p: string)
    requires |dash| == 1 && |p| == 2
    ensures var l := y + dash + p; |l| >= 3 && l[|l| - 2..] == p && l[..|l| - 3] == y
  {
    var l := y + dash + p;
    assert l[|l| - 2..] == p;
    assert l[..|l| - 3] == y;
  }

  /** A month from 1 to 12, padded to two digits, reads back as itself. */
  lemma PaddedValue(m: int)
    requires 1 <= m <= 12
    ensures var p := PadStart(NatToDecimal(m), 2, '0');
            (forall i :: 0 <= i < |p| ==> '0' <= p[i] <= '9') && DecimalValue(p) == m
  {
    var p := PadStart(NatToDecimal(m), 2, '0');
    DecimalRoundTrip(m);
    if m < 10 {
      assert p == ['0'] + NatToDecimal(m);
      assert p[..1] == ['0'];
    }
  }

  lemma IntToDecimalInjective(x: int, y: int)
    requires IntToDecimal(x) == IntToDecimal(y)
    ensures x == y
  {
    IntToDecimalSign(x);
    IntToDecimalSign(y);
    if x < 0 {
      assert IntToDecimal(x)[1..] == NatToDecimal(-x);
      assert IntToDecimal(y)[1..] == NatToDecimal(-y);
      NatToDecimalInjective(-x, -y);
    } else {
      NatToDecimalInjective(x, y);
    }
  }

  /** A row of the per-month SQL query: `ym` is strftime('%Y-%m', created_at),
      NULL when created_at does not parse, and `c` the number of parcels. */
  datatype MonthRow = MonthRow(ym: Option<string>, c: nat)

  datatype MonthCount = MonthCount(month: string, count: nat)

  /** `rowsMonthly.find(r => r.ym === ym)?.c`: the count of the first row with
      that key. */
  function FindCount(rows: seq<MonthRow>, key: string): (r: Option<nat>)
    ensures r.None? <==> forall i :: 0 <= i < |rows| ==> rows[i].ym != Some(key)
    ensures r.Some? ==> exists i :: 0 <= i < |rows| && rows[i].ym == Some(key) && rows[i].c == r.value &&
                          forall j :: 0 <= j < i ==> rows[j].ym != Some(key)
  {
    if rows == [] then None
    else if rows[0].ym == Some(key) then Some(rows[0].c)
    else
      var r := FindCount(rows[1..], key);
      assert r.Some? ==> exists i :: 1 <= i < |rows| && rows[i].ym == Some(key) && rows[i].c == r.value &&
                           forall j :: 0 <= j < i ==> rows[j].ym != Some(key) by {
        if r.Some? {
          var i :| 0 <= i < |rows[1..]| && rows[1..][i].ym == Some(key) && rows[1..][i].c == r.value &&
                   forall j :: 0 <= j < i ==> rows[1..][j].ym != Some(key);
          assert rows[i + 1] == rows[1..][i];
          assert forall j :: 1 <= j < i + 1 ==> rows[j] == rows[1..][j - 1];
        }
      }
      r
  }

  /** The entry of the window for the month i months before the current one:
      its label, and the count of the first query row with that label, or 0
      when no row has it. */
  function EntryFor(nowYear: int, nowMonth: int, rows: seq<MonthRow>, i: int): MonthCount {
    var key := Label(MonthsBefore(nowYear, nowMonth, i));
    MonthCount(key, FindCount(rows, key).GetOr(0))
  }

  /** An entry carries its month's label and the count of the first query
      row with that label, or 0 when no row has it. */
  lemma EntryForCount(nowYear: int, nowMonth: int, rows: seq<MonthRow>, i: int)
    ensures var e := EntryFor(nowYear, nowMonth, rows, i);
            && e.month == Label(MonthsBefore(nowYear, nowMonth, i))
            && ((forall k :: 0 <= k < |rows| ==> rows[k].ym != Some(e.month)) ==> e.count == 0)
            && forall k :: (0 <= k < |rows| && rows[k].ym == Some(e.month) &&
                            (forall l :: 0 <= l < k ==> rows[l].ym != Some(e.month))) ==> e.count == rows[k].c
  {
    var e := EntryFor(nowYear, nowMonth, rows, i);
    var found := FindCount(rows, e.month);
    if found.Some? {
      var k :| 0 <= k < |rows| && rows[k].ym == Some(e.month) && rows[k].c == found.value &&
               forall j :: 0 <= j < k ==> rows[j].ym != Some(e.month);
    }
  }

  /** The loop `for (let i = 11; i >= 0; i--)` that builds `monthlyEvolution`;
      `nowYear` and `nowMonth` are `now.getFullYear()` and `now.getMonth()`. */
  method MonthlyEvolution(nowYear: int, nowMonth: int, rows: seq<MonthRow>) returns (evo: seq<MonthCount>)
    ensures |evo| == 12
    ensures forall j :: 0 <= j < 12 ==> evo[j] == EntryFor(nowYear, nowMonth, rows, 11 - j)
  {
    evo := [];
    for i := 12 downto 0
      invariant |evo| == 12 - i
      invariant forall j :: 0 <= j < |evo| ==> evo[j] == EntryFor(nowYear, nowMonth, rows, 11 - j)
    {
      var d := MonthsBefore(nowYear, nowMonth, i);
      var ym := Label(d);
      var found := FindCount(rows, ym);
      ghost var prev := evo;
      evo := evo + [MonthCount(ym, found.GetOr(0))];
      assert evo[|prev|] == EntryFor(nowYear, nowMonth, rows, i);
      assert forall j :: 0 <= j < |prev| ==> evo[j] == prev[j];
    }
  }

  /** The window covers twelve consecutive calendar months and, for a year the
      Date constructor takes literally, its last entry is the current month. */
  lemma WindowIsConsecutive(nowYear: int, nowMonth: int)
    requires 0 <= nowMonth <= 11
    ensures forall i :: 0 <= i < 11 ==>
              MonthsBefore(nowYear, nowMonth, i) == NextMonth(MonthsBefore(nowYear, nowMonth, i + 1))
    ensures !(0 <= nowYear <= 99) ==> MonthsBefore(nowYear, nowMonth, 0) == YearMonth(nowYear, nowMonth + 1)
  {
    forall i | 0 <= i < 11
      ensures MonthsBefore(nowYear, nowMonth, i) == NextMonth(MonthsBefore(nowYear, nowMonth, i + 1))
    {
      MonthsBeforeConsecutive(nowYear, nowMonth, i);
    }
    if !(0 <= nowYear <= 99) {
      MonthsBeforeNow(nowYear, nowMonth);
    }
  }

  /** The twelve labels of the window are pairwise different. */
  lemma WindowLabelsDistinct(nowYear: int, nowMonth: int, i: int, j: int)
    requires 0 <= i < j <= 11
    ensures Label(MonthsBefore(nowYear, nowMonth, i)) != Label(MonthsBefore(nowYear, nowMonth, j))
  {
    var a, b := MonthsBefore(nowYear, nowMonth, i), MonthsBefore(nowYear, nowMonth, j);
    var ta := DateYear(nowYear) * 12 + nowMonth - i;
    var tb := DateYear(nowYear) * 12 + nowMonth - j;
    assert ta == a.year * 12 + a.month - 1;
    assert tb == b.year * 12 + b.month - 1;
    assert a != b;
    LabelInjective(a, b);
  }
}
