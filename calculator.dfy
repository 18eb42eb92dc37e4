/**
 * One recalculation of the projection, without the page: the capital and
 * withdrawal read-outs in words, the 50:50 split, how long the fixed
 * deposit lasts, and what the Nifty 50 half is worth after tax at the end
 * of that time.
 */
module Calculator {
  import NumberWords
  import Depletion
  import Duration
  import Allocation
  import opened Text

  /** Everything `calculate` writes to the page, before currency formatting. */
  datatype Projection = Projection(
    capitalWords: string,
    withdrawalWords: string,
    fdPrincipal: real,
    niftyPrincipal: real,
    months: nat,
    readout: Duration.Readout,
    niftyGross: real,
    tax: real,
    niftyNet: real,
    niftyWords: string)

  /** JavaScript's `Math.round`: the nearest whole number, halves rounded up. */
  function Round(x: real): (r: int)
    ensures r as real - 0.5 <= x < r as real + 0.5
  {
    (x + 0.5).Floor
  }

  /**
   * The words shown under an amount field: nothing unless the amount is
   * positive, nothing for an amount below 1 either, and from 1 on the
   * reference spelling of its whole part, joined by single spaces.
   */
  function HelperWords(amount: real): (w: string)
    ensures amount.Floor <= 0 ==> w == ""
    ensures amount.Floor > 0 ==> w != "" && Unpadded(w) && Split(w, Space) == NumberWords.WordList(amount.Floor)
  {
    NumberWords.NumberToWordsSpelling(amount);
    if amount > 0.0 then NumberWords.NumberToWords(amount) else ""
  }

  /** The words under a positive amount below 10^10 read back as its whole part. */
  lemma HelperWordsReadBack(amount: real)
    requires amount > 0.0 && amount.Floor < 10000000000
    ensures NumberWords.ParseWords(HelperWords(amount)) == amount.Floor
  {
    NumberWords.ParseNumberToWords(amount);
  }

  /**
   * The Nifty fund's gross value after `months`: its principal grown by
   * `1 + niftyRate/100` per year, raised by `pow` to the fractional years.
   */
  function NiftyGross(principal: real, niftyRate: real, months: nat, pow: (real, real) -> real): real {
    principal * pow(1.0 + niftyRate / 100.0, months as real / 12.0)
  }

  /**
   * `calculate` on already parsed inputs. `pow` stands for `Math.pow`,
   * which the Nifty projection raises `1 + niftyRate/100` to the
   * (fractional) number of years with.
   */
  method Calculate(capital: real, fdRate: real, niftyRate: real, withdrawal: real, taxRate: real,
                   pow: (real, real) -> real)
    returns (p: Projection)
    ensures p.capitalWords == HelperWords(capital) && p.withdrawalWords == HelperWords(withdrawal)
    ensures p.fdPrincipal == p.niftyPrincipal && p.fdPrincipal + p.niftyPrincipal == capital
    ensures p.months == Depletion.Survival(p.fdPrincipal, Depletion.MonthlyRate(fdRate), withdrawal)
    ensures p.readout == Duration.DurationReadout(p.months)
    ensures p.niftyGross == NiftyGross(p.niftyPrincipal, niftyRate, p.months, pow)
    ensures p.tax == Allocation.Tax(Allocation.Gains(p.niftyGross, p.niftyPrincipal), taxRate)
    ensures p.niftyNet == p.niftyGross - p.tax
    ensures p.niftyWords == NumberWords.NumberToWords(Round(p.niftyNet) as real)
  {
    var capitalWords := HelperWords(capital);
    var withdrawalWords := HelperWords(withdrawal);

    var split := Allocation.Allocate(capital);
    var months, _ := Depletion.Deplete(split.fdPrincipal, fdRate, withdrawal);
    var readout := Duration.DurationReadout(months);

    var niftyGross := NiftyGross(split.niftyPrincipal, niftyRate, months, pow);
    var gains := Allocation.Gains(niftyGross, split.niftyPrincipal);
    var tax := Allocation.Tax(gains, taxRate);
    var niftyNet := niftyGross - tax;

    p := Projection(capitalWords, withdrawalWords, split.fdPrincipal, split.niftyPrincipal,
                    months, readout, niftyGross, tax, niftyNet,
                    NumberWords.NumberToWords(Round(niftyNet) as real));
  }

  /**
   * What a projection promises: the deposit reports "Indefinite" exactly
   * when it lasted the full 100 years, and otherwise its balance ran out
   * after the reported months; the net Nifty value equals the gross value
   * whenever the fund did not gain.
   */
  lemma ProjectionFacts(capital: real, fdRate: real, withdrawal: real, months: nat, gross: real, taxRate: real)
    requires months == Depletion.Survival(capital / 2.0, Depletion.MonthlyRate(fdRate), withdrawal)
    ensures Duration.DurationReadout(months).result == "Indefinite" <==> months == Depletion.Cap
    ensures months < Depletion.Cap ==>
      Depletion.BalanceAfter(capital / 2.0, Depletion.MonthlyRate(fdRate), withdrawal, months) <= 0.0
    ensures capital <= 0.0 ==> months == 0
    ensures gross <= capital / 2.0 ==> Allocation.Net(gross, capital / 2.0, taxRate) == gross
  {
    Duration.ReadoutIndefinite(months);
    if capital <= 0.0 {
      Depletion.NoPrincipalNoMonths(capital / 2.0, Depletion.MonthlyRate(fdRate), withdrawal);
    }
    if gross <= capital / 2.0 {
      Allocation.NoGainNoTax(gross, capital / 2.0, taxRate);
    }
  }
}
