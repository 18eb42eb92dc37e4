/**
 * The read-out of how long the fixed deposit lasts: "Indefinite" once the
 * simulation reached its cap, otherwise the month count and a breakdown
 * into years and remaining months in which a zero part is left out.
 */
module Duration {
  import opened Text
  import Depletion

  /** The two texts the calculator shows for the FD: the headline and the line beneath it. */
  datatype Readout = Readout(result: string, detail: string)

  /** The "<n> Years" and "<n> Months" parts of the breakdown, zero parts left out. */
  function TimeParts(months: nat): seq<string> {
    var years := months / 12;
    var remMonths := months % 12;
    (if years > 0 then [Decimal(years) + " Years"] else [])
    + (if remMonths > 0 then [Decimal(remMonths) + " Months"] else [])
  }

  /** The duration read-out for a month count returned by the depletion loop. */
  function DurationReadout(months: nat): Readout {
    if months >= Depletion.Cap then Readout("Indefinite", "Interest covers monthly withdrawal")
    else Readout(Decimal(months) + " Months", "~ " + Join(TimeParts(months), ", "))
  }

  // ---------------------------------------------------------------------
  // Reading a breakdown back
  // ---------------------------------------------------------------------

  /** The months one "<n> Years" or "<n> Months" part stands for; anything else counts as 0. */
  function PartMonths(part: string): nat {
    var ws := Split(part, Space);
    if |ws| == 2 && ws[1] == "Years" then 12 * DecimalValue(ws[0])
    else if |ws| == 2 && ws[1] == "Months" then DecimalValue(ws[0])
    else 0
  }

  function PartsMonths(parts: seq<string>): nat {
    if parts == [] then 0 else PartMonths(parts[0]) + PartsMonths(parts[1..])
  }

  /** "<n> <unit>" splits at its space into the digits of `n` and the unit. */
  lemma SplitCount(n: nat, unit: string, suffix: string)
    requires IsWord(unit) && suffix == [Space] + unit
    ensures Split(Decimal(n) + suffix, Space) == [Decimal(n), unit]
  {
    var d := Decimal(n);
    DecimalRoundTrip(n);
    assert Join([d, unit], [Space]) == d + suffix by {
      assert [d, unit][1..] == [unit];
    }
    SplitJoin([d, unit], Space);
  }

  lemma YearsPart(n: nat)
    ensures PartMonths(Decimal(n) + " Years") == 12 * n
  {
    SplitCount(n, "Years", " Years");
    DecimalRoundTrip(n);
  }

  lemma MonthsPart(n: nat)
    ensures PartMonths(Decimal(n) + " Months") == n
  {
    SplitCount(n, "Months", " Months");
    assert "Months" != "Years";
    DecimalRoundTrip(n);
  }

  /**
   * The breakdown is faithful: every part it shows is non-zero, the years
   * part is there exactly when there is a whole year, the months part
   * exactly when months remain, and the parts add back up to the count.
   */
  lemma TimePartsReadBack(months: nat)
    ensures forall i :: 0 <= i < |TimeParts(months)| ==> PartMonths(TimeParts(months)[i]) > 0
    ensures months / 12 > 0 <==> Decimal(months / 12) + " Years" in TimeParts(months)
    ensures months % 12 > 0 <==> Decimal(months % 12) + " Months" in TimeParts(months)
    ensures PartsMonths(TimeParts(months)) == months
  {
    var y := months / 12;
    var r := months % 12;
    var yp := Decimal(y) + " Years";
    var rp := Decimal(r) + " Months";
    YearsPart(y);
    MonthsPart(r);
    var ys: seq<string> := if y > 0 then [yp] else [];
    var rs: seq<string> := if r > 0 then [rp] else [];
    var parts := TimeParts(months);
    assert parts == ys + rs;
    assert PartsMonths(rs) == r by {
      if r > 0 { assert rs[1..] == []; }
    }
    assert PartsMonths(parts) == 12 * y + r by {
      if y > 0 { assert parts[1..] == rs; }
    }
  }

  /** A headline ending in "Months" is never "Indefinite"; a line starting with "~" is never the interest line. */
  lemma TextsDiffer(d: string, parts: string)
    ensures d + " Months" != "Indefinite"
    ensures "~ " + parts != "Interest covers monthly withdrawal"
  {
    var h := d + " Months";
    assert h[|h| - 1] == 's';
    assert ("~ " + parts)[0] == '~';
  }

  /**
   * "Indefinite", and the interest line beneath it, are shown exactly when
   * the month count reached the cap.
   */
  lemma ReadoutIndefinite(months: nat)
    ensures DurationReadout(months).result == "Indefinite" <==> months >= Depletion.Cap
    ensures DurationReadout(months).detail == "Interest covers monthly withdrawal" <==> months >= Depletion.Cap
  {
    if months < Depletion.Cap {
      TextsDiffer(Decimal(months), Join(TimeParts(months), ", "));
    }
  }

  /** Below the cap the headline is the month count, read back exactly, followed by "Months". */
  lemma ReadoutHeadline(months: nat)
    requires months < Depletion.Cap
    ensures Split(DurationReadout(months).result, Space) == [Decimal(months), "Months"]
    ensures DecimalValue(Decimal(months)) == months
  {
    SplitCount(months, "Months", " Months");
    DecimalRoundTrip(months);
  }

  /** A count of 0 (a principal that was not positive) leaves the breakdown line as the bare "~ ". */
  lemma ReadoutZero()
    ensures DurationReadout(0) == Readout("0 Months", "~ ")
  {
    assert TimeParts(0) == [];
  }
}
