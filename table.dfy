/** The rows of the project list: PPM number, title, contact and the
    progress label `"{progress}%"`. */
module Table {
  import opened Projects

  datatype Row = Row(ppmNumber: string, title: string, contact: string, progress: string)

  predicate IsDigit(c: char) { '0' <= c <= '9' }

  function Digit(d: nat): (c: char)
    requires d < 10
    ensures IsDigit(c) && c as int - '0' as int == d
  {
    (d + '0' as int) as char
  }

  /** Decimal notation of `n`, as Python's f-string prints an int. */
  function Decimal(n: nat): (r: string)
    ensures 1 <= |r|
    ensures forall i :: 0 <= i < |r| ==> IsDigit(r[i])
    ensures r[0] == '0' <==> n == 0
    ensures n == 0 ==> r == "0"
    decreases n
  {
    if n < 10 then [Digit(n)] else Decimal(n / 10) + [Digit(n % 10)]
  }

  /** The number a string of decimal digits denotes. */
  function DigitsValue(s: string): nat
    requires forall i :: 0 <= i < |s| ==> IsDigit(s[i])
  {
    if |s| == 0 then 0
    else
      assert IsDigit(s[|s| - 1]);
      DigitsValue(s[..|s| - 1]) * 10 + (s[|s| - 1] as int - '0' as int)
  }

  /** Reading back the printed number gives the number. */
  lemma {:induction false} DecimalRoundTrip(n: nat)
    ensures DigitsValue(Decimal(n)) == n
  {
    if n >= 10 {
      var r := Decimal(n);
      assert r[..|r| - 1] == Decimal(n / 10);
      DecimalRoundTrip(n / 10);
    }
  }

  /** The text of the progress column. */
  function Label(percent: nat): (r: string)
    ensures |r| >= 2 && r[|r| - 1] == '%'
    ensures forall i :: 0 <= i < |r| - 1 ==> IsDigit(r[i])
    ensures DigitsValue(r[..|r| - 1]) == percent
    ensures r[0] == '0' <==> percent == 0
    ensures percent == 0 ==> r == "0%"
  {
    DecimalRoundTrip(percent);
    assert (Decimal(percent) + "%")[..|Decimal(percent)|] == Decimal(percent);
    Decimal(percent) + "%"
  }

  /** The row shown for project `p` at `percent` progress. */
  function RowOf(p: Project, percent: nat): (r: Row)
    ensures r.ppmNumber == p.ppmNumber && r.title == p.title && r.contact == p.contact
    ensures r.progress == Label(percent)
  {
    Row(p.ppmNumber, p.title, p.contact, Label(percent))
  }

  /** The labels of the six stage percentages and of a project not started. */
  lemma LabelExamples()
    ensures Label(0) == "0%" && Label(16) == "16%" && Label(33) == "33%"
    ensures Label(100) == "100%"
  {
  }
}
